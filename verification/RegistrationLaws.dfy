/** What the registration transaction answers, in terms of the rows it finds: who is
    recognised, what is refused, and which rows are written. */
module RegistrationLaws {
  import opened Common
  import opened Identities
  import opened RegistrationService

  // ---- Whom a form is recognised as -------------------------------------------

  /** A contact or birth date is given on both sides, and it is the same. */
  ghost predicate Shared(a: Option<nat>, b: Option<nat>) {
    a.Some? && b.Some? && a.value == b.value
  }

  /** The named locks fit the lookup: a session that is about to look somebody up waits for
      exactly those whose form would be recognised as the same person, by the same tenant, the
      same name and a shared contact or birth date. */
  lemma LocksFitLookup(a: Participant, b: Participant, tenantOfA: nat, tenantOfB: nat)
    ensures PersonLockKeys(a, tenantOfA) !! PersonLockKeys(b, tenantOfB) <==>
      !(tenantOfA == tenantOfB && a.name == b.name
        && (Shared(a.email, b.email) || Shared(a.phone, b.phone) || Shared(a.birth, b.birth)))
  {
    var common := PersonLockKeys(a, tenantOfA) * PersonLockKeys(b, tenantOfB);
    if tenantOfA == tenantOfB && a.name == b.name {
      assert Shared(a.email, b.email) ==> EmailKey(tenantOfA, a.name, a.email.value) in common;
      assert Shared(a.phone, b.phone) ==> PhoneKey(tenantOfA, a.name, a.phone.value) in common;
      assert Shared(a.birth, b.birth) ==> BirthKey(tenantOfA, a.name, a.birth.value) in common;
    }
    if common != {} {
      var key :| key in common;
    }
  }

  /** The identity a row stands for. */
  ghost function CurrentOf(db: Db, p: PersonId): PersonId
    requires p in db.persons
  {
    match db.persons[p].mergedInto
    case Some(target) => target
    case None => p
  }

  /** A row of the tenant with the same name and at least one shared contact or birth date; a
      student form does not find people of the roster this way. */
  ghost predicate Recognised(db: Db, data: Participant, tenant: nat, excludeRoster: bool, p: PersonId) {
    && p in db.persons && db.persons[p].tenant == tenant && db.persons[p].details.name == data.name
    && (|| Shared(db.persons[p].details.email, data.email) || Shared(db.persons[p].details.phone, data.phone)
        || Shared(db.persons[p].details.birth, data.birth))
    && (excludeRoster ==> CurrentOf(db, p) !in db.roster)
  }

  /** All rows recognised stand for the one identity. */
  ghost predicate OneIdentity(db: Db, data: Participant, tenant: nat, excludeRoster: bool, who: PersonId) {
    && (exists p :: Recognised(db, data, tenant, excludeRoster, p))
    && forall p :: Recognised(db, data, tenant, excludeRoster, p) ==> CurrentOf(db, p) == who
  }

  ghost predicate NobodyRecognised(db: Db, data: Participant, tenant: nat, excludeRoster: bool) {
    forall p :: !Recognised(db, data, tenant, excludeRoster, p)
  }

  ghost predicate AliasRecognised(db: Db, data: Participant, tenant: nat, excludeRoster: bool) {
    exists p :: Recognised(db, data, tenant, excludeRoster, p) && db.persons[p].mergedInto.Some?
  }

  /** The newer data, with the older contacts and birth date where it has none. */
  ghost predicate Completed(current: Participant, data: Participant, details: Participant) {
    && details.name == data.name && details.group == data.group && details.student == data.student
    && details.email == (if data.email.None? then current.email else data.email)
    && details.phone == (if data.phone.None? then current.phone else data.phone)
    && details.birth == if data.birth.None? then current.birth else data.birth
  }

  /** The person's row is refreshed, and nothing else. */
  ghost predicate RefreshedOnly(db: Db, after: Db, who: PersonId, data: Participant) {
    && who in db.persons && who in after.persons
    && Completed(db.persons[who].details, data, after.persons[who].details)
    && after == db.(persons := db.persons[who := db.persons[who].(details := after.persons[who].details)])
  }

  lemma RowsRecognised(db: Db, data: Participant, tenant: nat, excludeRoster: bool, p: PersonId)
    ensures p in Candidates(db, data, tenant, excludeRoster) <==> Recognised(db, data, tenant, excludeRoster, p)
    ensures p in db.persons ==> Primary(LinksOf(db.persons), p) == CurrentOf(db, p)
  {
  }

  lemma IdentityListed(
    db: Db, data: Participant, tenant: nat, excludeRoster: bool, who: PersonId)
    ensures who in Primaries(db, Candidates(db, data, tenant, excludeRoster)) <==>
      exists p :: Recognised(db, data, tenant, excludeRoster, p) && CurrentOf(db, p) == who
  {
    var candidates := Candidates(db, data, tenant, excludeRoster);
    if who in Primaries(db, candidates) {
      var p :| p in candidates && Primary(LinksOf(db.persons), p) == who;
      RowsRecognised(db, data, tenant, excludeRoster, p);
    }
    if p :| Recognised(db, data, tenant, excludeRoster, p) && CurrentOf(db, p) == who {
      RowsRecognised(db, data, tenant, excludeRoster, p);
    }
  }

  lemma IdentitiesCounted(db: Db, data: Participant, tenant: nat, excludeRoster: bool)
    ensures var ids := Primaries(db, Candidates(db, data, tenant, excludeRoster));
      && (|ids| == 0 <==> NobodyRecognised(db, data, tenant, excludeRoster))
      && (|ids| == 1 ==> OneIdentity(db, data, tenant, excludeRoster, Least(ids)))
      && forall who: PersonId :: OneIdentity(db, data, tenant, excludeRoster, who) ==> ids == {who}
  {
    var ids := Primaries(db, Candidates(db, data, tenant, excludeRoster));
    forall who: PersonId
      ensures who in ids <==> exists p :: Recognised(db, data, tenant, excludeRoster, p) && CurrentOf(db, p) == who
    {
      IdentityListed(db, data, tenant, excludeRoster, who);
    }
    forall p | Recognised(db, data, tenant, excludeRoster, p)
      ensures CurrentOf(db, p) in ids
    {
      IdentityListed(db, data, tenant, excludeRoster, CurrentOf(db, p));
    }
    if |ids| == 1 {
      OnlyMember(ids, Least(ids));
    }
  }

  lemma OnlyMember(ids: set<PersonId>, who: PersonId)
    requires |ids| == 1 && who in ids
    ensures ids == {who}
  {
    assert |ids - {who}| == 0;
  }

  /** The lookup returns the one identity that is recognised, refreshed only if asked for and
      no alias was among the rows; otherwise it creates a person with the form's data, marked
      for review if several identities were recognised. */
  lemma LookupAnswered(db: Db, data: Participant, tenant: nat, update: bool, excludeRoster: bool, newId: PersonId)
    ensures var found := FindOrCreatePerson(db, data, tenant, update, excludeRoster, newId);
      if OneIdentity(db, data, tenant, excludeRoster, found.person) then
        if update && !AliasRecognised(db, data, tenant, excludeRoster) && found.person in db.persons
        then RefreshedOnly(db, found.db, found.person, data) else found.db == db
      else
        && found.person == newId
        && (forall who: PersonId :: !OneIdentity(db, data, tenant, excludeRoster, who))
        && found.db == db.(persons := db.persons[newId :=
             Person(tenant, data, None, !NobodyRecognised(db, data, tenant, excludeRoster))])
  {
    IdentitiesCounted(db, data, tenant, excludeRoster);
    AliasesRecognised(db, data, tenant, excludeRoster);
  }

  lemma AliasesRecognised(db: Db, data: Participant, tenant: nat, excludeRoster: bool)
    ensures (exists p :: p in Candidates(db, data, tenant, excludeRoster) && db.persons[p].mergedInto.Some?)
      == AliasRecognised(db, data, tenant, excludeRoster)
  {
    if AliasRecognised(db, data, tenant, excludeRoster) {
      var p :| Recognised(db, data, tenant, excludeRoster, p) && db.persons[p].mergedInto.Some?;
      RowsRecognised(db, data, tenant, excludeRoster, p);
    }
    if p :| p in Candidates(db, data, tenant, excludeRoster) && db.persons[p].mergedInto.Some? {
      RowsRecognised(db, data, tenant, excludeRoster, p);
    }
  }

  /** A current student of the tenant's roster with the form's name and group. */
  ghost predicate Proposed(db: Db, data: Participant, tenant: nat, p: PersonId) {
    && data.student && data.group.Some?
    && p in db.roster && p in db.persons && db.persons[p].tenant == tenant && db.persons[p].mergedInto.None?
    && db.persons[p].details.student && db.persons[p].details.name == data.name
    && db.persons[p].details.group.Some? && db.persons[p].details.group.value == data.group.value
  }

  ghost predicate OnlyProposal(db: Db, data: Participant, tenant: nat, p: PersonId) {
    Proposed(db, data, tenant, p) && forall q :: Proposed(db, data, tenant, q) ==> q == p
  }

  lemma ProposalsCounted(db: Db, data: Participant, tenant: nat)
    ensures var proposals := RosterCandidates(db, data, tenant);
      && (forall p :: p in proposals <==> Proposed(db, data, tenant, p))
      && (|proposals| == 1 ==> OnlyProposal(db, data, tenant, Least(proposals)))
      && forall p: PersonId :: OnlyProposal(db, data, tenant, p) ==> proposals == {p}
  {
    var proposals := RosterCandidates(db, data, tenant);
    if |proposals| == 1 {
      OnlyMember(proposals, Least(proposals));
    }
  }

  /** A form is for the only student the roster proposes, and otherwise for whoever the lookup
      finds. */
  lemma PersonAnswered(db: Db, form: Form, ctx: Context)
    ensures var found, data := PersonFor(db, form, ctx), form.payload.data;
      if exists p :: OnlyProposal(db, data, ctx.tenant, p)
      then OnlyProposal(db, data, ctx.tenant, found.person) && found.db == db
      else found == FindOrCreatePerson(db, data, ctx.tenant, !form.public, data.student, ctx.person)
  {
    ProposalsCounted(db, form.payload.data, ctx.tenant);
  }

  // ---- Seats ------------------------------------------------------------------

  ghost predicate ActiveAt(db: Db, event: EventId, r: RegistrationId) {
    r in db.registrations && db.registrations[r].active && db.registrations[r].event == event
  }

  ghost function Attendance(db: Db, event: EventId): set<RegistrationId> {
    set r | r in db.registrations && ActiveAt(db, event, r)
  }

  /** Active registrations of the stream, whatever their event. */
  ghost function Occupants(db: Db, stream: StreamId): set<RegistrationId> {
    set r | r in db.registrations && db.registrations[r].active && db.registrations[r].stream.Some?
      && db.registrations[r].stream.value == stream
  }

  /** The event, or the chosen stream, has no seat left. */
  ghost predicate NoSeat(db: Db, limits: Limits, form: Form) {
    match form.payload.stream
    case None => limits.event(form.event) <= |Attendance(db, form.event)|
    case Some(stream) => limits.stream(stream) <= |Occupants(db, stream)|
  }

  /** The request is remembered for the registration, if it has an identifier. */
  ghost predicate Remembered(db: Db, after: Db, form: Form, r: RegistrationId) {
    after.requests == match form.requestId
      case None => db.requests
      case Some(id) => db.requests[RequestKey(form.event, form.actor, id) := Request(r, form.payload)]
  }

  /** One registration of the person is added as the form says, and a ticket if there is an
      e-mail address to send it to. */
  ghost predicate Added(db: Db, after: Db, form: Form, person: PersonId, r: RegistrationId) {
    && after.persons == db.persons && after.roster == db.roster && Remembered(db, after, form, r)
    && r !in db.registrations && r in after.registrations
    && after.registrations == db.registrations[r := after.registrations[r]]
    && after.registrations[r].event == form.event && after.registrations[r].person == person
    && after.registrations[r].stream == form.payload.stream && after.registrations[r].active
    && after.registrations[r].email == form.payload.data.email && after.registrations[r].overridden == form.override
    && after.tickets == if form.payload.data.email.Some? then db.tickets + [r] else db.tickets
  }

  lemma SeatsCounted(db: Db, limits: Limits, form: Form)
    ensures Active(db, form.event) == Attendance(db, form.event)
    ensures Full(db, limits, form) == NoSeat(db, limits, form)
  {
    assert Active(db, form.event) == Attendance(db, form.event);
    if form.payload.stream.Some? {
      assert InStream(db, form.payload.stream.value) == Occupants(db, form.payload.stream.value);
    }
  }

  /** A new registration is refused exactly for a missing seat, unless overbooked, for the
      limit of 5000, or for an identifier that exists. */
  lemma AdmissionAnswered(db: Db, limits: Limits, form: Form, ctx: Context, person: PersonId)
    ensures var outcome := Admit(db, limits, form, ctx, person);
      if NoSeat(db, limits, form) && !form.override then outcome == Err(CapacityFull)
      else if |Attendance(db, form.event)| >= 5000 then outcome == Err(EventRegistrationLimit)
      else if ctx.registration in db.registrations then outcome == Err(Conflict)
      else
        && outcome.Ok? && outcome.value.reply == Registered(ctx.registration)
        && Added(db, outcome.value.db, form, person, ctx.registration)
  {
    SeatsCounted(db, limits, form);
  }

  // ---- The whole form ---------------------------------------------------------

  /** The earlier submission under the same key. */
  ghost predicate Submitted(db: Db, form: Form) {
    form.requestId.Some? && RequestKey(form.event, form.actor, form.requestId.value) in db.requests
  }

  /** The first check that refuses the form, before anybody is looked up. */
  ghost function FormRefusal(db: Db, form: Form, ctx: Context): Option<Error> {
    var data := form.payload.data;
    if !ctx.welcome then Some(NotAllowed)
    else if Submitted(db, form) then None
    else if !ctx.valid || (form.requestId.None? && data.email.None? && data.phone.None? && data.birth.None?) then
      Some(Validation)
    else if ctx.person in db.persons then Some(Conflict)
    else None
  }

  /** A resubmitted form: its registration again, or refused when it says something else or
      the registration is gone. */
  ghost function Resubmitted(db: Db, form: Form): Result<Outcome, Error>
    requires Submitted(db, form)
  {
    var earlier := db.requests[RequestKey(form.event, form.actor, form.requestId.value)];
    var r := earlier.registration;
    if earlier.payload != form.payload || r !in db.registrations || !db.registrations[r].active then
      Err(RequestAlreadyUsed)
    else
      Ok(Outcome(db, if form.public then Repeated(db.registrations[r].email.Some?) else AlreadyRegistered(r)))
  }

  /** The person has an active registration for the event. */
  ghost predicate RegisteredAs(db: Db, event: EventId, person: PersonId, r: RegistrationId) {
    ActiveAt(db, event, r) && db.registrations[r].person == person
  }

  /** What remains of the form once its person is found: the registration they have, or a new
      one, before which a public form refreshes a person the roster did not propose. */
  ghost predicate Registers(
    found: Found, limits: Limits, form: Form, ctx: Context, proposals: bool, outcome: Result<Outcome, Error>)
  {
    if exists r :: RegisteredAs(found.db, form.event, found.person, r) then
      exists r :: RegisteredAs(found.db, form.event, found.person, r) && outcome == Repeat(found.db, form, ctx, r)
    else if form.public && !proposals && found.person in found.db.persons then
      exists db :: RefreshedOnly(found.db, db, found.person, form.payload.data)
        && outcome == Admit(db, limits, form, ctx, found.person)
    else
      outcome == Admit(found.db, limits, form, ctx, found.person)
  }

  /** The answer to a form: refused by the first check that fails, answered from its earlier
      submission, or registered for the person it is for. */
  lemma FormAnswered(db: Db, limits: Limits, form: Form, ctx: Context)
    ensures var outcome, refusal := Register(db, limits, form, ctx), FormRefusal(db, form, ctx);
      if refusal.Some? then outcome == Err(refusal.value)
      else if Submitted(db, form) then outcome == Resubmitted(db, form)
      else Registers(PersonFor(db, form, ctx), limits, form, ctx,
        exists p :: Proposed(db, form.payload.data, ctx.tenant, p), outcome)
  {
    if FormRefusal(db, form, ctx).None? && !Submitted(db, form) {
      ProposalsCounted(db, form.payload.data, ctx.tenant);
      FoundPersonRegisters(PersonFor(db, form, ctx), limits, form, ctx,
        exists p :: Proposed(db, form.payload.data, ctx.tenant, p));
    }
  }

  lemma FoundPersonRegisters(found: Found, limits: Limits, form: Form, ctx: Context, proposals: bool)
    ensures var existing := ActiveOf(found.db, form.event, found.person);
      Registers(found, limits, form, ctx, proposals,
        if existing != {} then Repeat(found.db, form, ctx, Least(existing))
        else Admit(Refresh(found.db, form, found.person, proposals), limits, form, ctx, found.person))
  {
    var existing := ActiveOf(found.db, form.event, found.person);
    if existing != {} {
      assert RegisteredAs(found.db, form.event, found.person, Least(existing));
    } else {
      forall r
        ensures !RegisteredAs(found.db, form.event, found.person, r)
      {
        assert r !in existing;
      }
      if form.public && !proposals && found.person in found.db.persons {
        assert RefreshedOnly(found.db, Refresh(found.db, form, found.person, proposals), found.person,
          form.payload.data);
      }
    }
  }

  /** A form for a registration there is: a public one only sends the ticket again, unless
      mail went out recently; the staff may not change the stream, and a new e-mail address
      replaces the old one and gets a ticket. */
  lemma RepeatAnswered(db: Db, form: Form, ctx: Context, r: RegistrationId)
    requires r in db.registrations
    ensures var outcome, reg, email := Repeat(db, form, ctx, r), db.registrations[r], form.payload.data.email;
      if form.public then
        && outcome.Ok? && outcome.value.reply == Repeated(reg.email.Some?)
        && outcome.value.db == db.(requests := outcome.value.db.requests, tickets := outcome.value.db.tickets)
        && Remembered(db, outcome.value.db, form, r)
        && outcome.value.db.tickets == if reg.email.Some? && !ctx.recentMail then db.tickets + [r] else db.tickets
      else if form.payload.stream != reg.stream then outcome == Err(StreamAlreadySelected)
      else
        && outcome.Ok? && outcome.value.reply == AlreadyRegistered(r) && Remembered(db, outcome.value.db, form, r)
        && outcome.value.db.persons == db.persons && outcome.value.db.roster == db.roster
        && outcome.value.db.registrations == db.registrations[r := reg.(email := OrKept(email, reg.email))]
        && outcome.value.db.tickets == if email.Some? then db.tickets + [r] else db.tickets
  {
  }

  ghost function OrKept(given: Option<nat>, kept: Option<nat>): Option<nat> {
    match given
    case Some(_) => given
    case None => kept
  }

  // ---- Imports, owners and capacities -----------------------------------------

  /** A row of an import is skipped when its person is registered already, and otherwise
      refused or written like a form, without a ticket. */
  lemma ImportAnswered(db: Db, limits: Limits, row: ImportRow)
    ensures var found, outcome, r := ImportedPerson(db, row), ImportOne(db, limits, row), row.ctx.registration;
      if exists q :: RegisteredAs(found.db, row.form.event, found.person, q) then outcome == Ok(found.db)
      else if NoSeat(found.db, limits, row.form) && !row.form.override then outcome == Err(CapacityFull)
      else if |Attendance(found.db, row.form.event)| >= 5000 then outcome == Err(EventRegistrationLimit)
      else if r in found.db.registrations then outcome == Err(Conflict)
      else
        outcome == Ok(found.db.(registrations := found.db.registrations[r := Registration(row.form.event,
          found.person, row.form.payload.stream, true, row.form.payload.data.email, row.form.override)]))
  {
    var found := ImportedPerson(db, row);
    SeatsCounted(found.db, limits, row.form);
    assert forall q :: q in ActiveOf(found.db, row.form.event, found.person) <==>
      RegisteredAs(found.db, row.form.event, found.person, q);
  }

  /** The two have active registrations for one event. */
  ghost predicate MeetAtEvent(db: Db, target: PersonId, source: PersonId) {
    exists event, q, r :: RegisteredAs(db, event, source, q) && RegisteredAs(db, event, target, r)
  }

  /** A merge hands every registration of the source over, unless the two meet at an event. */
  lemma OwnersMergedExactly(db: Db, target: PersonId, source: PersonId)
    ensures var after := MergeOwners(db, target, source).registrations;
      if MeetAtEvent(db, target, source) then after == db.registrations
      else
        && after.Keys == db.registrations.Keys
        && forall r :: r in after ==> after[r] == db.registrations[r].(
             person := if db.registrations[r].person == source then target else db.registrations[r].person)
  {
    if BothActive(db, target, source) {
      var q, r :| q in db.registrations && r in db.registrations
        && Clashing(db.registrations[q], db.registrations[r])
        && db.registrations[q].person == source && db.registrations[r].person == target;
      var event := db.registrations[q].event;
      assert RegisteredAs(db, event, source, q) && RegisteredAs(db, event, target, r);
    }
    if MeetAtEvent(db, target, source) {
      var event, q, r :| RegisteredAs(db, event, source, q) && RegisteredAs(db, event, target, r);
      assert Clashing(db.registrations[q], db.registrations[r]);
    }
  }

  /** A capacity is changed exactly when it is the present one or takes no seat away. */
  lemma CapacitiesChangedExactly(db: Db, limits: Limits, event: EventId, stream: StreamId, capacity: nat)
    ensures WithEventCapacity(db, limits, event, capacity).event(event) ==
      if |Attendance(db, event)| <= capacity then capacity else limits.event(event)
    ensures WithStreamCapacity(db, limits, stream, capacity).stream(stream) ==
      if |Occupants(db, stream)| <= capacity then capacity else limits.stream(stream)
    ensures forall e :: e != event ==> WithEventCapacity(db, limits, event, capacity).event(e) == limits.event(e)
    ensures forall s :: s != stream ==> WithStreamCapacity(db, limits, stream, capacity).stream(s) == limits.stream(s)
  {
    assert Active(db, event) == Attendance(db, event);
    assert InStream(db, stream) == Occupants(db, stream);
  }
}
