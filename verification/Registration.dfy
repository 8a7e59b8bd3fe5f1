/** The registration transaction (registration_service.py). Digests are modelled as what
    they cover; streams, form validation and mail history are inputs. */
module RegistrationService {
  import opened Common
  import opened Identities

  type PersonId = nat
  type RegistrationId = nat
  type EventId = nat
  type StreamId = nat

  const EVENT_LIMIT := 5000

  datatype Participant = Participant(
    name: nat, email: Option<nat>, phone: Option<nat>, birth: Option<nat>, group: Option<nat>, student: bool)

  datatype Person = Person(tenant: nat, details: Participant, mergedInto: Option<PersonId>, reviewRequired: bool)

  datatype Registration = Registration(
    event: EventId, person: PersonId, stream: Option<StreamId>, active: bool, email: Option<nat>, overridden: bool)

  datatype RequestKey = RequestKey(event: EventId, actor: Option<nat>, id: nat)

  /** Everything of the form except the capacity override. */
  datatype Payload = Payload(data: Participant, stream: Option<StreamId>, other: nat)

  datatype Request = Request(registration: RegistrationId, payload: Payload)

  datatype Db = Db(
    persons: map<PersonId, Person>, roster: set<PersonId>, registrations: map<RegistrationId, Registration>,
    requests: map<RequestKey, Request>, tickets: seq<RegistrationId>)

  datatype Form = Form(
    event: EventId, public: bool, actor: Option<nat>, requestId: Option<nat>, payload: Payload, override: bool)

  /** What the rest of the system contributes: the event's tenant, the outcomes of the
      checks before and after the replay test, fresh identifiers, and recent mail. */
  datatype Context = Context(
    tenant: nat, welcome: bool, valid: bool, person: PersonId, registration: RegistrationId, recentMail: bool)

  datatype Limits = Limits(event: EventId -> nat, stream: StreamId -> nat)

  datatype Error =
    | NotAllowed | RequestAlreadyUsed | Validation | StreamAlreadySelected | CapacityFull
    | EventRegistrationLimit | Conflict

  datatype Reply = Registered(id: RegistrationId) | AlreadyRegistered(id: RegistrationId) | Repeated(recovery: bool)

  datatype Outcome = Outcome(db: Db, reply: Reply)

  // ---- People -----------------------------------------------------------------

  function LinksOf(persons: map<PersonId, Person>): Links {
    map p | p in persons :: persons[p].mergedInto
  }

  predicate Equal(a: Option<nat>, b: Option<nat>) {
    a.Some? && a == b
  }

  /** Same name, and at least one equal contact or birth date. */
  predicate Alike(a: Participant, b: Participant) {
    a.name == b.name && (Equal(a.email, b.email) || Equal(a.phone, b.phone) || Equal(a.birth, b.birth))
  }

  /** What a named lock stands for; the order of the texts is the order in which they are
      taken. */
  datatype LockKey =
    | EmailKey(tenant: nat, name: nat, email: nat)
    | PhoneKey(tenant: nat, name: nat, phone: nat)
    | BirthKey(tenant: nat, name: nat, birth: nat)

  /** `person_lock_keys`: one key for each contact or date that is given. */
  function PersonLockKeys(data: Participant, tenant: nat): set<LockKey> {
    (if data.email.Some? then {EmailKey(tenant, data.name, data.email.value)} else {})
    + (if data.phone.Some? then {PhoneKey(tenant, data.name, data.phone.value)} else {})
    + (if data.birth.Some? then {BirthKey(tenant, data.name, data.birth.value)} else {})
  }

  function Candidates(db: Db, data: Participant, tenant: nat, excludeRoster: bool): set<PersonId> {
    set p | p in db.persons && db.persons[p].tenant == tenant && Alike(db.persons[p].details, data)
      && (!excludeRoster || Primary(LinksOf(db.persons), p) !in db.roster)
  }

  function Primaries(db: Db, candidates: set<PersonId>): set<PersonId>
    requires forall p :: p in candidates ==> p in db.persons
  {
    set p | p in candidates :: Primary(LinksOf(db.persons), p)
  }

  /** `update_person`: contacts that are not given are kept. */
  function Refreshed(current: Participant, data: Participant): Participant {
    data.(email := if data.email.Some? then data.email else current.email,
          phone := if data.phone.Some? then data.phone else current.phone,
          birth := if data.birth.Some? then data.birth else current.birth)
  }

  function UpdatePerson(db: Db, p: PersonId, data: Participant): Db {
    if p !in db.persons then db
    else db.(persons := db.persons[p := db.persons[p].(details := Refreshed(db.persons[p].details, data))])
  }

  datatype Found = Found(db: Db, person: PersonId)

  function FindOrCreatePerson(
    db: Db, data: Participant, tenant: nat, update: bool, excludeRoster: bool, newId: PersonId): Found
  {
    var candidates := Candidates(db, data, tenant, excludeRoster);
    var ids := Primaries(db, candidates);
    if |ids| == 1 then
      var person := Least(ids);
      Found(if update && !exists p :: p in candidates && db.persons[p].mergedInto.Some?
        then UpdatePerson(db, person, data) else db, person)
    else
      Found(db.(persons := db.persons[newId := Person(tenant, data, None, |ids| > 1)]), newId)
  }

  function RosterCandidates(db: Db, data: Participant, tenant: nat): set<PersonId> {
    set p | p in db.roster && p in db.persons && data.student && data.group.Some?
      && db.persons[p].tenant == tenant && db.persons[p].details.student && db.persons[p].mergedInto.None?
      && db.persons[p].details.name == data.name && db.persons[p].details.group == data.group
  }

  // ---- Registrations ----------------------------------------------------------

  function Active(db: Db, event: EventId): set<RegistrationId> {
    set r | r in db.registrations && db.registrations[r].active && db.registrations[r].event == event
  }

  /** Active registrations without a stream. */
  function Streamless(db: Db, event: EventId): set<RegistrationId> {
    set r | r in Active(db, event) && db.registrations[r].stream.None?
  }

  function InStream(db: Db, stream: StreamId): set<RegistrationId> {
    set r | r in db.registrations && db.registrations[r].active && db.registrations[r].stream == Some(stream)
  }

  function Overridden(db: Db, among: set<RegistrationId>): set<RegistrationId> {
    set r | r in among && r in db.registrations && db.registrations[r].overridden
  }

  function ActiveOf(db: Db, event: EventId, person: PersonId): set<RegistrationId> {
    set r | r in Active(db, event) && db.registrations[r].person == person
  }

  function KeyOf(form: Form): RequestKey
    requires form.requestId.Some?
  {
    RequestKey(form.event, form.actor, form.requestId.value)
  }

  function Remember(db: Db, form: Form, r: RegistrationId): Db {
    if form.requestId.None? then db
    else db.(requests := db.requests[KeyOf(form) := Request(r, form.payload)])
  }

  function QueueTicket(db: Db, r: RegistrationId, send: bool): Db {
    if send then db.(tickets := db.tickets + [r]) else db
  }

  /** The earlier submission of this request, if any. */
  function Replay(db: Db, form: Form): Option<Result<Reply, Error>> {
    if form.requestId.None? || KeyOf(form) !in db.requests then
      None
    else
      var previous := db.requests[KeyOf(form)];
      if previous.registration !in db.registrations || previous.payload != form.payload
         || !db.registrations[previous.registration].active then Some(Err(RequestAlreadyUsed))
      else if form.public then Some(Ok(Repeated(db.registrations[previous.registration].email.Some?)))
      else Some(Ok(AlreadyRegistered(previous.registration)))
  }

  /** The person the form is for, the tables after the lookup, and the roster proposals. */
  function PersonFor(db: Db, form: Form, ctx: Context): Found {
    var data := form.payload.data;
    var proposals := RosterCandidates(db, data, ctx.tenant);
    if |proposals| == 1 then Found(db, Least(proposals))
    else FindOrCreatePerson(db, data, ctx.tenant, !form.public, data.student, ctx.person)
  }

  /** A form for somebody who already has an active registration. */
  function Repeat(db: Db, form: Form, ctx: Context, r: RegistrationId): Result<Outcome, Error>
    requires r in db.registrations
  {
    var reg := db.registrations[r];
    if form.public then
      Ok(Outcome(QueueTicket(Remember(db, form, r), r, reg.email.Some? && !ctx.recentMail), Repeated(reg.email.Some?)))
    else if reg.stream != form.payload.stream then
      Err(StreamAlreadySelected)
    else
      var email := form.payload.data.email;
      var updated := db.(registrations :=
        db.registrations[r := reg.(email := if email.Some? then email else reg.email)]);
      Ok(Outcome(Remember(QueueTicket(updated, r, email.Some?), form, r), AlreadyRegistered(r)))
  }

  predicate Full(db: Db, limits: Limits, form: Form) {
    match form.payload.stream
    case None => |Active(db, form.event)| >= limits.event(form.event)
    case Some(stream) => |InStream(db, stream)| >= limits.stream(stream)
  }

  function NewRegistration(form: Form, person: PersonId): Registration {
    Registration(form.event, person, form.payload.stream, true, form.payload.data.email, form.override)
  }

  function Admit(db: Db, limits: Limits, form: Form, ctx: Context, person: PersonId): Result<Outcome, Error> {
    if Full(db, limits, form) && !form.override then Err(CapacityFull)
    else if |Active(db, form.event)| >= EVENT_LIMIT then Err(EventRegistrationLimit)
    else if ctx.registration in db.registrations then Err(Conflict)
    else
      var r := ctx.registration;
      var created := db.(registrations := db.registrations[r := NewRegistration(form, person)]);
      Ok(Outcome(Remember(QueueTicket(created, r, form.payload.data.email.Some?), form, r), Registered(r)))
  }

  /** A public form refreshes the person it registers, unless the roster proposed somebody. */
  function Refresh(db: Db, form: Form, person: PersonId, proposed: bool): Db {
    if form.public && !proposed then UpdatePerson(db, person, form.payload.data) else db
  }

  /** `register`. */
  function Register(db: Db, limits: Limits, form: Form, ctx: Context): Result<Outcome, Error> {
    var data := form.payload.data;
    if !ctx.welcome then
      Err(NotAllowed)
    else if Replay(db, form).Some? then
      var reply :- Replay(db, form).value;
      Ok(Outcome(db, reply))
    else if form.requestId.None? && data.email.None? && data.phone.None? && data.birth.None? then
      Err(Validation)
    else if !ctx.valid then
      Err(Validation)
    else if ctx.person in db.persons then
      Err(Conflict)
    else
      var found := PersonFor(db, form, ctx);
      var existing := ActiveOf(found.db, form.event, found.person);
      if existing != {} then
        Repeat(found.db, form, ctx, Least(existing))
      else
        Admit(Refresh(found.db, form, found.person, RosterCandidates(db, data, ctx.tenant) != {}),
              limits, form, ctx, found.person)
  }

  // ---- Limits and uniqueness --------------------------------------------------

  predicate Clashing(a: Registration, b: Registration) {
    a.active && b.active && a.event == b.event
  }

  ghost predicate OnePerPerson(registrations: map<RegistrationId, Registration>) {
    forall q, r :: q in registrations && r in registrations && q != r ==>
      !(Clashing(registrations[q], registrations[r]) && registrations[q].person == registrations[r].person)
  }

  /** Seats are exceeded only by active registrations that were explicitly overbooked. */
  ghost predicate WithinCapacity(db: Db, limits: Limits) {
    && (forall e: EventId :: |Active(db, e)| <= EVENT_LIMIT)
    && (forall e: EventId :: |Streamless(db, e)| <= limits.event(e) + |Overridden(db, Streamless(db, e))|)
    && (forall s: StreamId :: |InStream(db, s)| <= limits.stream(s) + |Overridden(db, InStream(db, s))|)
  }

  ghost predicate Inv(db: Db, limits: Limits) {
    OnePerPerson(db.registrations) && WithinCapacity(db, limits)
  }

  lemma SubsetSize<T>(a: set<T>, b: set<T>)
    requires a <= b
    ensures |a| <= |b|
  {
    assert b == a + (b - a);
  }

  /** The seat of registration `r` is taken or given back; every other seat stays. */
  ghost predicate SeatAdded(a: Db, b: Db, r: RegistrationId) {
    && r in b.registrations && b.registrations[r].active && (r in a.registrations ==> !a.registrations[r].active)
    && (forall q :: q != r ==> (q in a.registrations <==> q in b.registrations))
    && (forall q :: q != r && q in a.registrations ==> a.registrations[q] == b.registrations[q])
  }

  lemma AddedActive(a: Db, b: Db, r: RegistrationId, e: EventId)
    requires SeatAdded(a, b, r)
    ensures Active(b, e) == if e == b.registrations[r].event then Active(a, e) + {r} else Active(a, e)
    ensures r !in Active(a, e)
  {
  }

  lemma AddedSeats(a: Db, b: Db, r: RegistrationId, sa: set<RegistrationId>, sb: set<RegistrationId>, here: bool)
    requires SeatAdded(a, b, r) && r !in sa && sb == if here then sa + {r} else sa
    ensures |sb| == |sa| + if here then 1 else 0
    ensures |Overridden(b, sb)| == |Overridden(a, sa)| + if here && b.registrations[r].overridden then 1 else 0
  {
    if here && b.registrations[r].overridden {
      assert Overridden(b, sb) == Overridden(a, sa) + {r};
    } else {
      assert Overridden(b, sb) == Overridden(a, sa);
    }
  }

  lemma InStreamMembers(a: Db, b: Db, r: RegistrationId, s: StreamId)
    requires SeatAdded(a, b, r)
    ensures forall q :: q != r ==> (q in InStream(a, s) <==> q in InStream(b, s))
    ensures r !in InStream(a, s) && (r in InStream(b, s) <==> b.registrations[r].stream == Some(s))
  {
  }

  lemma StreamlessMembers(a: Db, b: Db, r: RegistrationId, e: EventId)
    requires SeatAdded(a, b, r)
    ensures forall q :: q != r ==> (q in Streamless(a, e) <==> q in Streamless(b, e))
    ensures r !in Streamless(a, e)
    ensures r in Streamless(b, e) <==> e == b.registrations[r].event && b.registrations[r].stream.None?
  {
  }

  lemma AddedStreamless(a: Db, b: Db, r: RegistrationId, e: EventId)
    requires SeatAdded(a, b, r)
    ensures var reg, here := b.registrations[r], e == b.registrations[r].event && b.registrations[r].stream.None?;
      && |Streamless(b, e)| == |Streamless(a, e)| + (if here then 1 else 0)
      && |Overridden(b, Streamless(b, e))| ==
           |Overridden(a, Streamless(a, e))| + (if here && reg.overridden then 1 else 0)
  {
    var reg, here := b.registrations[r], e == b.registrations[r].event && b.registrations[r].stream.None?;
    assert Streamless(b, e) == if here then Streamless(a, e) + {r} else Streamless(a, e) by {
      StreamlessMembers(a, b, r, e);
    }
    AddedSeats(a, b, r, Streamless(a, e), Streamless(b, e), here);
  }

  lemma AddedInStream(a: Db, b: Db, r: RegistrationId, s: StreamId)
    requires SeatAdded(a, b, r)
    ensures var reg, here := b.registrations[r], b.registrations[r].stream == Some(s);
      && |InStream(b, s)| == |InStream(a, s)| + (if here then 1 else 0)
      && |Overridden(b, InStream(b, s))| == |Overridden(a, InStream(a, s))| + (if here && reg.overridden then 1 else 0)
  {
    var reg, here := b.registrations[r], b.registrations[r].stream == Some(s);
    assert InStream(b, s) == if here then InStream(a, s) + {r} else InStream(a, s) by {
      InStreamMembers(a, b, r, s);
    }
    AddedSeats(a, b, r, InStream(a, s), InStream(b, s), here);
  }

  /** One more active registration, admitted by the capacity check. */
  lemma AdmissionKeepsCapacity(db: Db, limits: Limits, r: RegistrationId, reg: Registration)
    requires WithinCapacity(db, limits) && r !in db.registrations && reg.active && |Active(db, reg.event)| < EVENT_LIMIT
    requires !reg.overridden ==> match reg.stream
      case None => |Active(db, reg.event)| < limits.event(reg.event)
      case Some(s) => |InStream(db, s)| < limits.stream(s)
    ensures WithinCapacity(db.(registrations := db.registrations[r := reg]), limits)
  {
    var next := db.(registrations := db.registrations[r := reg]);
    forall e: EventId
      ensures |Active(next, e)| <= EVENT_LIMIT
    {
      AddedActive(db, next, r, e);
    }
    forall e: EventId
      ensures |Streamless(next, e)| <= limits.event(e) + |Overridden(next, Streamless(next, e))|
    {
      AddedStreamless(db, next, r, e);
      SubsetSize(Streamless(db, e), Active(db, e));
    }
    forall s: StreamId
      ensures |InStream(next, s)| <= limits.stream(s) + |Overridden(next, InStream(next, s))|
    {
      AddedInStream(db, next, r, s);
    }
  }

  /** The same seats are taken: registrations differ only in their owner and e-mail. */
  lemma SeatsUnmoved(a: Db, b: Db, limits: Limits)
    requires a.registrations.Keys == b.registrations.Keys && WithinCapacity(a, limits)
    requires forall r :: r in a.registrations ==>
      b.registrations[r] == a.registrations[r].(person := b.registrations[r].person, email := b.registrations[r].email)
    ensures WithinCapacity(b, limits)
  {
    forall e: EventId
      ensures Active(b, e) == Active(a, e) && Streamless(b, e) == Streamless(a, e)
      ensures Overridden(b, Streamless(b, e)) == Overridden(a, Streamless(a, e))
    {
    }
    forall s: StreamId
      ensures InStream(b, s) == InStream(a, s) && Overridden(b, InStream(b, s)) == Overridden(a, InStream(a, s))
    {
    }
  }

  /** Registrations differ only in their e-mail. */
  lemma SameSeats(a: Db, b: Db, limits: Limits)
    requires a.registrations.Keys == b.registrations.Keys
    requires forall r :: r in a.registrations ==>
      b.registrations[r] == a.registrations[r].(email := b.registrations[r].email)
    ensures Inv(a, limits) ==> Inv(b, limits)
  {
    if Inv(a, limits) {
      SeatsUnmoved(a, b, limits);
    }
  }

  lemma RegisterKeepsInv(db: Db, limits: Limits, form: Form, ctx: Context)
    requires Inv(db, limits) && Register(db, limits, form, ctx).Ok?
    ensures Inv(Register(db, limits, form, ctx).value.db, limits)
  {
    if Replay(db, form).None? {
      var found := PersonFor(db, form, ctx);
      var existing := ActiveOf(found.db, form.event, found.person);
      assert found.db.registrations == db.registrations;
      SameSeats(db, found.db, limits);
      if existing != {} {
        RepeatKeepsInv(found.db, limits, form, ctx, Least(existing));
      } else {
        var refreshed :=
          Refresh(found.db, form, found.person, RosterCandidates(db, form.payload.data, ctx.tenant) != {});
        SameSeats(db, refreshed, limits);
        AdmissionKeepsInv(refreshed, limits, form, ctx, found.person);
      }
    }
  }

  lemma RepeatKeepsInv(db: Db, limits: Limits, form: Form, ctx: Context, r: RegistrationId)
    requires Inv(db, limits) && r in db.registrations && Repeat(db, form, ctx, r).Ok?
    ensures Inv(Repeat(db, form, ctx, r).value.db, limits)
  {
    SameSeats(db, Repeat(db, form, ctx, r).value.db, limits);
  }

  lemma AdmissionKeepsUnique(db: Db, form: Form, person: PersonId, r: RegistrationId)
    requires OnePerPerson(db.registrations) && ActiveOf(db, form.event, person) == {} && r !in db.registrations
    ensures OnePerPerson(db.registrations[r := NewRegistration(form, person)])
  {
    forall q | q in db.registrations && db.registrations[q].active && db.registrations[q].event == form.event
      ensures db.registrations[q].person != person
    {
      assert q !in ActiveOf(db, form.event, person);
    }
  }

  lemma AdmissionKeepsInv(db: Db, limits: Limits, form: Form, ctx: Context, person: PersonId)
    requires Inv(db, limits) && ActiveOf(db, form.event, person) == {} && Admit(db, limits, form, ctx, person).Ok?
    ensures Inv(Admit(db, limits, form, ctx, person).value.db, limits)
  {
    var r, reg := ctx.registration, NewRegistration(form, person);
    AdmissionKeepsCapacity(db, limits, r, reg);
    var created := db.(registrations := db.registrations[r := reg]);
    AdmissionKeepsUnique(db, form, person, r);
    SameSeats(created, Admit(db, limits, form, ctx, person).value.db, limits);
  }

  function Annul(db: Db, r: RegistrationId): Db {
    if r in db.registrations then
      db.(registrations := db.registrations[r := db.registrations[r].(active := false)])
    else
      db
  }

  lemma AnnulKeepsInv(db: Db, limits: Limits, r: RegistrationId)
    requires Inv(db, limits)
    ensures Inv(Annul(db, r), limits)
  {
    var next := Annul(db, r);
    if r in db.registrations && db.registrations[r].active {
      forall e: EventId
        ensures |Active(next, e)| <= EVENT_LIMIT
      {
        AddedActive(next, db, r, e);
      }
      forall e: EventId
        ensures |Streamless(next, e)| <= limits.event(e) + |Overridden(next, Streamless(next, e))|
      {
        AddedStreamless(next, db, r, e);
      }
      forall s: StreamId
        ensures |InStream(next, s)| <= limits.stream(s) + |Overridden(next, InStream(next, s))|
      {
        AddedInStream(next, db, r, s);
      }
    } else {
      SameSeats(db, next, limits);
    }
  }

  // ---- Owners and capacities --------------------------------------------------

  /** A review links the registration to another student, unless that student already has an
      active one for the event. */
  function Relink(db: Db, r: RegistrationId, person: PersonId): Db {
    if r !in db.registrations || ActiveOf(db, db.registrations[r].event, person) != {} then db
    else db.(registrations := db.registrations[r := db.registrations[r].(person := person)])
  }

  /** Some event has an active registration of each. */
  predicate BothActive(db: Db, target: PersonId, source: PersonId) {
    exists q, r :: q in db.registrations && r in db.registrations && Clashing(db.registrations[q], db.registrations[r])
      && db.registrations[q].person == source && db.registrations[r].person == target
  }

  function MovedOwners(registrations: map<RegistrationId, Registration>, target: PersonId, source: PersonId)
    : map<RegistrationId, Registration>
  {
    map r | r in registrations ::
      if registrations[r].person == source then registrations[r].(person := target) else registrations[r]
  }

  /** A merge hands the source's registrations over, unless both are active at an event. */
  function MergeOwners(db: Db, target: PersonId, source: PersonId): Db {
    if BothActive(db, target, source) then db
    else db.(registrations := MovedOwners(db.registrations, target, source))
  }

  /** An event's capacity is not changed to less than its active registrations. */
  function WithEventCapacity(db: Db, limits: Limits, event: EventId, capacity: nat): Limits {
    if capacity != limits.event(event) && capacity < |Active(db, event)| then limits
    else limits.(event := (e: EventId) => if e == event then capacity else limits.event(e))
  }

  /** Nor is a stream's. */
  function WithStreamCapacity(db: Db, limits: Limits, stream: StreamId, capacity: nat): Limits {
    if capacity != limits.stream(stream) && capacity < |InStream(db, stream)| then limits
    else limits.(stream := (s: StreamId) => if s == stream then capacity else limits.stream(s))
  }

  lemma RelinkKeepsInv(db: Db, limits: Limits, r: RegistrationId, person: PersonId)
    requires Inv(db, limits)
    ensures Inv(Relink(db, r, person), limits)
  {
    var after := Relink(db, r, person);
    SeatsUnmoved(db, after, limits);
    if r in db.registrations && ActiveOf(db, db.registrations[r].event, person) == {} {
      forall q | q in db.registrations && Clashing(db.registrations[q], db.registrations[r])
        ensures db.registrations[q].person != person
      {
        assert q !in ActiveOf(db, db.registrations[r].event, person);
      }
    }
  }

  lemma MergeKeepsInv(db: Db, limits: Limits, target: PersonId, source: PersonId)
    requires Inv(db, limits)
    ensures Inv(MergeOwners(db, target, source), limits)
  {
    var after := MergeOwners(db, target, source);
    SeatsUnmoved(db, after, limits);
    if !BothActive(db, target, source) {
      forall q, r | q in after.registrations && r in after.registrations && q != r
        ensures !(Clashing(after.registrations[q], after.registrations[r])
                  && after.registrations[q].person == after.registrations[r].person)
      {
        assert q in db.registrations && r in db.registrations;
      }
    }
  }

  lemma EventCapacityKeepsInv(db: Db, limits: Limits, event: EventId, capacity: nat)
    requires Inv(db, limits)
    ensures Inv(db, WithEventCapacity(db, limits, event, capacity))
  {
    SubsetSize(Streamless(db, event), Active(db, event));
  }

  lemma StreamCapacityKeepsInv(db: Db, limits: Limits, stream: StreamId, capacity: nat)
    requires Inv(db, limits)
    ensures Inv(db, WithStreamCapacity(db, limits, stream, capacity))
  {
  }

  // ---- Imports ----------------------------------------------------------------

  /** What the staff decided about a row whose person is in doubt. */
  datatype Choice = UsePerson(person: PersonId) | CreateNew | Automatic

  datatype ImportRow = ImportRow(form: Form, ctx: Context, choice: Choice)

  function ImportedPerson(db: Db, row: ImportRow): Found {
    match row.choice
    case UsePerson(person) => Found(db, person)
    case CreateNew =>
      Found(db.(persons := db.persons[row.ctx.person := Person(row.ctx.tenant, row.form.payload.data, None, true)]),
        row.ctx.person)
    case Automatic => PersonFor(db, row.form, row.ctx)
  }

  /** A row whose person is registered already is skipped. */
  function ImportOne(db: Db, limits: Limits, row: ImportRow): Result<Db, Error> {
    var found, r := ImportedPerson(db, row), row.ctx.registration;
    if ActiveOf(found.db, row.form.event, found.person) != {} then Ok(found.db)
    else if Full(found.db, limits, row.form) && !row.form.override then Err(CapacityFull)
    else if |Active(found.db, row.form.event)| >= EVENT_LIMIT then Err(EventRegistrationLimit)
    else if r in found.db.registrations then Err(Conflict)
    else Ok(found.db.(registrations := found.db.registrations[r := NewRegistration(row.form, found.person)]))
  }

  /** The rows of one file, in one transaction. */
  function ImportRows(db: Db, limits: Limits, rows: seq<ImportRow>): Result<Db, Error> {
    if rows == [] then
      Ok(db)
    else
      var before :- ImportRows(db, limits, rows[..|rows| - 1]);
      ImportOne(before, limits, rows[|rows| - 1])
  }

  lemma ImportOneKeepsInv(db: Db, limits: Limits, row: ImportRow)
    requires Inv(db, limits) && ImportOne(db, limits, row).Ok?
    ensures Inv(ImportOne(db, limits, row).value, limits)
  {
    var found := ImportedPerson(db, row);
    assert found.db.registrations == db.registrations;
    SameSeats(db, found.db, limits);
    if ActiveOf(found.db, row.form.event, found.person) == {} {
      AdmissionKeepsCapacity(found.db, limits, row.ctx.registration, NewRegistration(row.form, found.person));
      AdmissionKeepsUnique(found.db, row.form, found.person, row.ctx.registration);
    }
  }

  lemma {:induction false} ImportKeepsInv(db: Db, limits: Limits, rows: seq<ImportRow>)
    requires Inv(db, limits) && ImportRows(db, limits, rows).Ok?
    ensures Inv(ImportRows(db, limits, rows).value, limits)
  {
    if rows != [] {
      ImportKeepsInv(db, limits, rows[..|rows| - 1]);
      ImportOneKeepsInv(ImportRows(db, limits, rows[..|rows| - 1]).value, limits, rows[|rows| - 1]);
    }
  }

  lemma {:induction false} ImportKeepsRequests(db: Db, limits: Limits, rows: seq<ImportRow>)
    requires ImportRows(db, limits, rows).Ok?
    ensures ImportRows(db, limits, rows).value.requests == db.requests
  {
    if rows != [] {
      ImportKeepsRequests(db, limits, rows[..|rows| - 1]);
      ImportOneKeepsRequests(ImportRows(db, limits, rows[..|rows| - 1]).value, limits, rows[|rows| - 1]);
    }
  }

  lemma ImportOneKeepsRequests(db: Db, limits: Limits, row: ImportRow)
    requires ImportOne(db, limits, row).Ok?
    ensures ImportOne(db, limits, row).value.requests == db.requests
  {
  }

  // ---- Runs -------------------------------------------------------------------

  datatype Step =
    | Submit(form: Form, ctx: Context)
    | Import(rows: seq<ImportRow>)
    | Withdraw(r: RegistrationId)
    | Link(r: RegistrationId, person: PersonId)
    | Merge(target: PersonId, source: PersonId)
    | EventCapacity(event: EventId, capacity: nat)
    | StreamCapacity(stream: StreamId, capacity: nat)

  /** The tables and the capacities in force. */
  datatype Office = Office(db: Db, limits: Limits)

  function Next(o: Office, step: Step): Office {
    match step
    case Submit(form, ctx) =>
      var outcome := Register(o.db, o.limits, form, ctx);
      if outcome.Ok? then o.(db := outcome.value.db) else o
    case Import(rows) =>
      var outcome := ImportRows(o.db, o.limits, rows);
      if outcome.Ok? then o.(db := outcome.value) else o
    case Withdraw(r) => o.(db := Annul(o.db, r))
    case Link(r, person) => o.(db := Relink(o.db, r, person))
    case Merge(target, source) => o.(db := MergeOwners(o.db, target, source))
    case EventCapacity(event, capacity) => o.(limits := WithEventCapacity(o.db, o.limits, event, capacity))
    case StreamCapacity(stream, capacity) => o.(limits := WithStreamCapacity(o.db, o.limits, stream, capacity))
  }

  function Run(o: Office, steps: seq<Step>): Office {
    if steps == [] then o else Next(Run(o, steps[..|steps| - 1]), steps[|steps| - 1])
  }

  lemma StepKeepsInv(o: Office, step: Step)
    requires Inv(o.db, o.limits)
    ensures Inv(Next(o, step).db, Next(o, step).limits)
  {
    match step
    case Submit(form, ctx) =>
      if Register(o.db, o.limits, form, ctx).Ok? {
        RegisterKeepsInv(o.db, o.limits, form, ctx);
      }
    case Import(rows) =>
      if ImportRows(o.db, o.limits, rows).Ok? {
        ImportKeepsInv(o.db, o.limits, rows);
      }
    case Withdraw(r) => AnnulKeepsInv(o.db, o.limits, r);
    case Link(r, person) => RelinkKeepsInv(o.db, o.limits, r, person);
    case Merge(target, source) => MergeKeepsInv(o.db, o.limits, target, source);
    case EventCapacity(event, capacity) => EventCapacityKeepsInv(o.db, o.limits, event, capacity);
    case StreamCapacity(stream, capacity) => StreamCapacityKeepsInv(o.db, o.limits, stream, capacity);
  }

  /** Over every run, with capacities that change on the way: at most 5000 active
      registrations an event, no capacity then in force exceeded but by overbooked seats,
      and one active registration a person. */
  lemma {:induction false} EveryRunWithinLimits(o: Office, steps: seq<Step>)
    requires Inv(o.db, o.limits)
    ensures Inv(Run(o, steps).db, Run(o, steps).limits)
  {
    if steps != [] {
      EveryRunWithinLimits(o, steps[..|steps| - 1]);
      StepKeepsInv(Run(o, steps[..|steps| - 1]), steps[|steps| - 1]);
    }
  }

  // ---- Replay -----------------------------------------------------------------

  lemma RequestsKept(o: Office, step: Step, key: RequestKey)
    requires key in o.db.requests
    ensures key in Next(o, step).db.requests && Next(o, step).db.requests[key] == o.db.requests[key]
  {
    if step.Submit? && Register(o.db, o.limits, step.form, step.ctx).Ok? && Replay(o.db, step.form).None? {
      OneRequestAdded(o.db, o.limits, step.form, step.ctx);
    }
    if step.Import? && ImportRows(o.db, o.limits, step.rows).Ok? {
      ImportKeepsRequests(o.db, o.limits, step.rows);
    }
  }

  /** A submission adds at most its own request. */
  lemma OneRequestAdded(db: Db, limits: Limits, form: Form, ctx: Context)
    requires Register(db, limits, form, ctx).Ok? && Replay(db, form).None?
    ensures exists r :: Register(db, limits, form, ctx).value.db.requests == Remember(db, form, r).requests
  {
    var found := PersonFor(db, form, ctx);
    assert found.db.requests == db.requests;
    var existing := ActiveOf(found.db, form.event, found.person);
    if existing != {} {
      var r := Least(existing);
      RepeatRequests(found.db, form, ctx, r);
      assert Repeat(found.db, form, ctx, r).value.db.requests == Remember(db, form, r).requests;
    } else {
      var refreshed := Refresh(found.db, form, found.person, RosterCandidates(db, form.payload.data, ctx.tenant) != {});
      AdmitRequests(refreshed, limits, form, ctx, found.person);
      assert Remember(refreshed, form, ctx.registration).requests == Remember(db, form, ctx.registration).requests;
    }
  }

  lemma RepeatRequests(db: Db, form: Form, ctx: Context, r: RegistrationId)
    requires r in db.registrations && Repeat(db, form, ctx, r).Ok?
    ensures Repeat(db, form, ctx, r).value.db.requests == Remember(db, form, r).requests
  {
  }

  lemma AdmitRequests(db: Db, limits: Limits, form: Form, ctx: Context, person: PersonId)
    requires Admit(db, limits, form, ctx, person).Ok?
    ensures Admit(db, limits, form, ctx, person).value.db.requests == Remember(db, form, ctx.registration).requests
  {
  }

  lemma {:induction false} RequestsNeverChange(o: Office, steps: seq<Step>, key: RequestKey)
    requires key in o.db.requests
    ensures key in Run(o, steps).db.requests && Run(o, steps).db.requests[key] == o.db.requests[key]
  {
    if steps != [] {
      RequestsNeverChange(o, steps[..|steps| - 1], key);
      RequestsKept(Run(o, steps[..|steps| - 1]), steps[|steps| - 1], key);
    }
  }

  /** The answer to a request that was already served by registration `r`. */
  function ReplayedAnswer(db: Db, form: Form, r: RegistrationId): Result<Outcome, Error> {
    if r !in db.registrations || !db.registrations[r].active then Err(RequestAlreadyUsed)
    else if form.public then Ok(Outcome(db, Repeated(db.registrations[r].email.Some?)))
    else Ok(Outcome(db, AlreadyRegistered(r)))
  }

  /** A request that succeeded once is remembered; submitting it again after any run
      changes nothing, and answers with its registration while that is active. */
  lemma ReplayChangesNothing(o: Office, form: Form, ctx: Context, steps: seq<Step>, again: Context)
    requires form.requestId.Some? && Register(o.db, o.limits, form, ctx).Ok?
    ensures var later := Run(Next(o, Submit(form, ctx)), steps);
      && Next(later, Submit(form, again)) == later
      && KeyOf(form) in later.db.requests && later.db.requests[KeyOf(form)].payload == form.payload
      && var r := later.db.requests[KeyOf(form)].registration;
         again.welcome ==> Register(later.db, later.limits, form, again) == ReplayedAnswer(later.db, form, r)
  {
    var first := Next(o, Submit(form, ctx));
    SuccessIsRemembered(o.db, o.limits, form, ctx);
    RequestsNeverChange(first, steps, KeyOf(form));
    RememberedIsReplayed(Run(first, steps), form, again);
  }

  lemma SuccessIsRemembered(db: Db, limits: Limits, form: Form, ctx: Context)
    requires form.requestId.Some? && Register(db, limits, form, ctx).Ok?
    ensures var after := Register(db, limits, form, ctx).value.db;
      KeyOf(form) in after.requests && after.requests[KeyOf(form)].payload == form.payload
  {
    if Replay(db, form).None? {
      OneRequestAdded(db, limits, form, ctx);
    }
  }

  lemma RememberedIsReplayed(o: Office, form: Form, ctx: Context)
    requires form.requestId.Some? && KeyOf(form) in o.db.requests && o.db.requests[KeyOf(form)].payload == form.payload
    ensures Next(o, Submit(form, ctx)) == o
    ensures ctx.welcome ==>
      Register(o.db, o.limits, form, ctx) == ReplayedAnswer(o.db, form, o.db.requests[KeyOf(form)].registration)
  {
    assert Replay(o.db, form).Some?;
  }

  // ---- Aliases ----------------------------------------------------------------

  lemma LookupReachesPrimary(
    db: Db, data: Participant, tenant: nat, update: bool, excludeRoster: bool, newId: PersonId)
    requires Flat(LinksOf(db.persons)) && newId !in db.persons
    ensures var found := FindOrCreatePerson(db, data, tenant, update, excludeRoster, newId);
      Flat(LinksOf(found.db.persons)) && found.person in found.db.persons
      && found.db.persons[found.person].mergedInto.None?
  {
    var candidates := Candidates(db, data, tenant, excludeRoster);
    var found := FindOrCreatePerson(db, data, tenant, update, excludeRoster, newId);
    if |Primaries(db, candidates)| == 1 {
      assert found.person in Primaries(db, candidates);
      var p :| p in candidates && Primary(LinksOf(db.persons), p) == found.person;
      assert LinksOf(found.db.persons) == LinksOf(db.persons);
      assert LinksOf(db.persons)[p].Some? ==> LinksOf(db.persons)[found.person].None?;
    } else {
      NewcomerKeepsFlat(LinksOf(db.persons), newId);
      assert LinksOf(found.db.persons) == LinksOf(db.persons)[newId := None];
    }
  }

  /** A form always lands on a primary identity, never on an alias. */
  lemma FormsReachPrimaries(db: Db, form: Form, ctx: Context)
    requires Flat(LinksOf(db.persons)) && ctx.person !in db.persons
    ensures var found := PersonFor(db, form, ctx);
      Flat(LinksOf(found.db.persons)) && found.person in found.db.persons
      && found.db.persons[found.person].mergedInto.None?
  {
    var data := form.payload.data;
    if |RosterCandidates(db, data, ctx.tenant)| != 1 {
      LookupReachesPrimary(db, data, ctx.tenant, !form.public, data.student, ctx.person);
    }
  }

  /** The form was recognised through an alias only: one person, found by an old identity. */
  ghost predicate ReachedThroughAlias(db: Db, form: Form, ctx: Context) {
    var data := form.payload.data;
    var candidates := Candidates(db, data, ctx.tenant, data.student);
    && |RosterCandidates(db, data, ctx.tenant)| != 1
    && |Primaries(db, candidates)| == 1
    && exists p :: p in candidates && db.persons[p].mergedInto.Some?
  }

  /** The lookup itself never lets an alias's data reach the primary; registering does so
      exactly for a new public registration without roster proposals. */
  lemma AliasDataOverwritesExactly(db: Db, limits: Limits, form: Form, ctx: Context)
    requires Flat(LinksOf(db.persons)) && ReachedThroughAlias(db, form, ctx)
    requires Register(db, limits, form, ctx).Ok? && Replay(db, form).None?
    ensures PersonFor(db, form, ctx).db == db
    ensures var person, data := PersonFor(db, form, ctx).person, form.payload.data;
      && person in db.persons
      && Register(db, limits, form, ctx).value.db.persons ==
           if form.public && ActiveOf(db, form.event, person) == {} && RosterCandidates(db, data, ctx.tenant) == {}
           then db.persons[person := db.persons[person].(details := Refreshed(db.persons[person].details, data))]
           else db.persons
  {
    FormsReachPrimaries(db, form, ctx);
  }
}
