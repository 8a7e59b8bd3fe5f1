/** The registration transaction as it runs: methods over the tables, each proved to give
    exactly the outcome its specification gives, or to leave the tables as they were. */
module RegistrationTables {
  import opened Common
  import opened Identities
  import opened RegistrationService
  import opened Statements

  class RegistrationDesk {
    var persons: map<PersonId, Person>
    var roster: set<PersonId>
    var registrations: map<RegistrationId, Registration>
    var requests: map<RequestKey, Request>
    var tickets: seq<RegistrationId>

    function View(): Db
      reads this
    {
      Db(persons, roster, registrations, requests, tickets)
    }

    constructor (persons: map<PersonId, Person>, roster: set<PersonId>)
      ensures View() == Db(persons, roster, map[], map[], [])
    {
      this.persons, this.roster, registrations, requests, tickets := persons, roster, map[], map[], [];
    }

    method UpdatePerson(p: PersonId, data: Participant)
      modifies this`persons
      ensures View() == RegistrationService.UpdatePerson(old(View()), p, data)
    {
      if p in persons {
        var current := persons[p].details;
        var details := data.(
          email := if data.email.Some? then data.email else current.email,
          phone := if data.phone.Some? then data.phone else current.phone,
          birth := if data.birth.Some? then data.birth else current.birth);
        persons := persons[p := persons[p].(details := details)];
      }
    }

    /** The primary identities among the rows the lookup selects, and whether any of the
        rows is an alias. */
    method MatchingIdentities(data: Participant, tenant: nat, excludeRoster: bool)
      returns (ids: set<PersonId>, aliased: bool)
      ensures var candidates := Candidates(View(), data, tenant, excludeRoster);
        && ids == Primaries(View(), candidates)
        && (aliased <==> exists p :: p in candidates && persons[p].mergedInto.Some?)
    {
      var unvisited := persons.Keys;
      ids, aliased := {}, false;
      while unvisited != {}
        invariant unvisited <= persons.Keys
        invariant ids == Primaries(View(), Candidates(View(), data, tenant, excludeRoster) - unvisited)
        invariant aliased <==>
          exists p :: p in Candidates(View(), data, tenant, excludeRoster) - unvisited && persons[p].mergedInto.Some?
      {
        var p :| p in unvisited;
        var row := persons[p];
        var primary := if row.mergedInto.Some? then row.mergedInto.value else p;
        ghost var before := Candidates(View(), data, tenant, excludeRoster) - unvisited;
        unvisited := unvisited - {p};
        ghost var after := Candidates(View(), data, tenant, excludeRoster) - unvisited;
        if row.tenant == tenant && Alike(row.details, data) && (!excludeRoster || primary !in roster) {
          ids, aliased := ids + {primary}, aliased || row.mergedInto.Some?;
          assert after == before + {p};
        } else {
          assert after == before;
        }
      }
      assert Candidates(View(), data, tenant, excludeRoster) - {} == Candidates(View(), data, tenant, excludeRoster);
    }

    /** Whoever is found or created is no alias, and nobody else's data changes. */
    method FindOrCreatePerson(data: Participant, tenant: nat, update: bool, excludeRoster: bool, newId: PersonId)
      returns (person: PersonId)
      modifies this`persons
      ensures Found(View(), person) ==
        RegistrationService.FindOrCreatePerson(old(View()), data, tenant, update, excludeRoster, newId)
      ensures forall p :: p in old(persons) && p != person ==> p in persons && persons[p] == old(persons)[p]
      ensures old(Flat(LinksOf(persons))) && newId !in old(persons) ==>
        Flat(LinksOf(persons)) && person in persons && persons[person].mergedInto.None?
    {
      var ids, aliased := MatchingIdentities(data, tenant, excludeRoster);
      if |ids| == 1 {
        person := Least(ids);
        if update && !aliased {
          UpdatePerson(person, data);
        }
      } else {
        persons := persons[newId := Person(tenant, data, None, |ids| > 1)];
        person := newId;
      }
      if old(Flat(LinksOf(persons))) && newId !in old(persons) {
        LookupReachesPrimary(old(View()), data, tenant, update, excludeRoster, newId);
      }
    }

    method RememberRequest(form: Form, r: RegistrationId)
      modifies this`requests
      ensures View() == Remember(old(View()), form, r)
    {
      if form.requestId.Some? {
        requests := requests[KeyOf(form) := Request(r, form.payload)];
      }
    }

    /** The active registrations of the event, and whether the form's seats are taken. */
    method CountSeats(form: Form, limits: Limits) returns (count: nat, full: bool)
      ensures count == |Active(View(), form.event)| && full == Full(View(), limits, form)
    {
      var event, stream := form.event, form.payload.stream;
      var ofEvent := (reg: Registration) => reg.active && reg.event == event;
      count := CountRows(registrations, ofEvent);
      assert Selected(registrations, ofEvent) == Active(View(), event);
      if stream.None? {
        full := count >= limits.event(event);
      } else {
        var ofStream := (reg: Registration) => reg.active && reg.stream == stream;
        var occupied := CountRows(registrations, ofStream);
        assert Selected(registrations, ofStream) == InStream(View(), stream.value);
        full := occupied >= limits.stream(stream.value);
      }
    }

    /** A registration is created only when a seat was free or overbooking was asked for, and
        below the limit of the event; otherwise nothing changes. */
    method CreateRegistration(form: Form, ctx: Context, person: PersonId, limits: Limits)
      returns (outcome: Result<Reply, Error>)
      modifies this`registrations, this`requests, this`tickets
      ensures match Admit(old(View()), limits, form, ctx, person)
        case Ok(done) => outcome == Ok(done.reply) && View() == done.db
        case Err(error) => outcome == Err(error)
      ensures outcome.Ok? ==>
        && (form.override || !Full(old(View()), limits, form))
        && Active(View(), form.event) == Active(old(View()), form.event) + {ctx.registration}
        && |Active(old(View()), form.event)| < |Active(View(), form.event)| <= EVENT_LIMIT
      ensures outcome.Err? ==> View() == old(View())
    {
      var count, full := CountSeats(form, limits);
      if full && !form.override {
        return Err(CapacityFull);
      }
      if count >= EVENT_LIMIT {
        return Err(EventRegistrationLimit);
      }
      if ctx.registration in registrations {
        return Err(Conflict);
      }
      registrations := registrations[ctx.registration := NewRegistration(form, person)];
      if form.payload.data.email.Some? {
        tickets := tickets + [ctx.registration];
      }
      RememberRequest(form, ctx.registration);
      AdmissionTakesSeat(old(View()), limits, form, ctx, person);
      return Ok(Registered(ctx.registration));
    }

    method RepeatRegistration(form: Form, ctx: Context, r: RegistrationId) returns (outcome: Result<Reply, Error>)
      requires r in registrations
      modifies this`registrations, this`requests, this`tickets
      ensures match Repeat(old(View()), form, ctx, r)
        case Ok(done) => outcome == Ok(done.reply) && View() == done.db
        case Err(error) => outcome == Err(error)
    {
      var reg := registrations[r];
      if form.public {
        RememberRequest(form, r);
        if reg.email.Some? && !ctx.recentMail {
          tickets := tickets + [r];
        }
        return Ok(Repeated(reg.email.Some?));
      }
      if reg.stream != form.payload.stream {
        return Err(StreamAlreadySelected);
      }
      var email := form.payload.data.email;
      registrations := registrations[r := reg.(email := if email.Some? then email else reg.email)];
      if email.Some? {
        tickets := tickets + [r];
      }
      RememberRequest(form, r);
      return Ok(AlreadyRegistered(r));
    }

    /** One transaction: the outcome of `register`, or the tables as they were. */
    method Submit(limits: Limits, form: Form, ctx: Context) returns (outcome: Result<Reply, Error>)
      modifies this
      ensures match Register(old(View()), limits, form, ctx)
        case Ok(done) => outcome == Ok(done.reply) && View() == done.db
        case Err(error) => outcome == Err(error) && View() == old(View())
      ensures old(Inv(View(), limits)) ==> Inv(View(), limits)
    {
      var saved := View();
      outcome := Serve(limits, form, ctx);
      if outcome.Err? {
        persons, roster, registrations := saved.persons, saved.roster, saved.registrations;
        requests, tickets := saved.requests, saved.tickets;
      } else if old(Inv(View(), limits)) {
        RegisterKeepsInv(old(View()), limits, form, ctx);
      }
    }

    method Serve(limits: Limits, form: Form, ctx: Context) returns (outcome: Result<Reply, Error>)
      modifies this
      ensures match Register(old(View()), limits, form, ctx)
        case Ok(done) => outcome == Ok(done.reply) && View() == done.db
        case Err(error) => outcome == Err(error)
    {
      var data := form.payload.data;
      if !ctx.welcome {
        return Err(NotAllowed);
      }
      var replay := Replay(View(), form);
      if replay.Some? {
        return replay.value;
      }
      if form.requestId.None? && data.email.None? && data.phone.None? && data.birth.None? {
        return Err(Validation);
      }
      if !ctx.valid {
        return Err(Validation);
      }
      if ctx.person in persons {
        return Err(Conflict);
      }
      var proposals := RosterCandidates(View(), data, ctx.tenant);
      var person;
      if |proposals| == 1 {
        person := Least(proposals);
      } else {
        person := FindOrCreatePerson(data, ctx.tenant, !form.public, data.student, ctx.person);
      }
      assert Found(View(), person) == PersonFor(old(View()), form, ctx);
      var existing := ActiveOf(View(), form.event, person);
      if existing != {} {
        outcome := RepeatRegistration(form, ctx, Least(existing));
      } else {
        if form.public && proposals == {} {
          UpdatePerson(person, data);
        }
        outcome := CreateRegistration(form, ctx, person, limits);
      }
    }
  }

  lemma AdmissionTakesSeat(db: Db, limits: Limits, form: Form, ctx: Context, person: PersonId)
    requires Admit(db, limits, form, ctx, person).Ok?
    ensures var after := Admit(db, limits, form, ctx, person).value.db;
      && (form.override || !Full(db, limits, form))
      && Active(after, form.event) == Active(db, form.event) + {ctx.registration}
      && |Active(db, form.event)| < |Active(after, form.event)| <= EVENT_LIMIT
  {
    AdmissionAddsSeat(db, limits, form, ctx, person);
    AddedActive(db, Admit(db, limits, form, ctx, person).value.db, ctx.registration, form.event);
  }

  lemma AdmissionAddsSeat(db: Db, limits: Limits, form: Form, ctx: Context, person: PersonId)
    requires Admit(db, limits, form, ctx, person).Ok?
    ensures var after := Admit(db, limits, form, ctx, person).value.db;
      SeatAdded(db, after, ctx.registration) && after.registrations[ctx.registration].event == form.event
  {
  }
}
