/** Merged identities: every person either is current or points at the person merged into.
    Both the activity tables and the registration desk read the same column. */
module Identities {
  import opened Common

  /** persons.merged_into_id. */
  type Links = map<nat, Option<nat>>

  /** Every alias points straight at a person who is not an alias. */
  ghost predicate Flat(links: Links) {
    forall p :: p in links && links[p].Some? ==> links[p].value in links && links[links[p].value].None?
  }

  /** The one-hop lookup COALESCE(merged_into_id, id). */
  function Primary(links: Links, p: nat): nat
    requires p in links
  {
    if links[p].Some? then links[p].value else p
  }

  /** A new person is current, so no alias changes. */
  lemma NewcomerKeepsFlat(links: Links, p: nat)
    requires Flat(links) && p !in links
    ensures Flat(links[p := None])
  {
    forall q | q in links && links[q].Some?
      ensures links[q].value != p
    {
      assert links[q].value in links;
    }
  }

  /** `after` is `links` with the source and its aliases pointing at the target. */
  ghost predicate Redirects(links: Links, after: Links, target: nat, source: nat) {
    && after.Keys == links.Keys
    && forall p :: p in links ==> after[p] == if p == source || links[p] == Some(source) then Some(target) else links[p]
  }

  lemma RedirectKeepsFlat(links: Links, after: Links, target: nat, source: nat)
    requires Flat(links) && Redirects(links, after, target, source) && target != source
    requires target in links && links[target].None? && source in links && links[source].None?
    ensures Flat(after)
  {
    forall p | p in after && after[p].Some?
      ensures after[p].value in after && after[after[p].value].None?
    {
      assert links[p].Some? ==> links[links[p].value].None?;
    }
  }
}

/** Registrations rely on the alias links that merges leave behind. */
module SharedIdentities {
  import opened Identities
  import ActivityModel
  import ActivityRuns
  import PersonLaws
  import RegistrationService

  /** Whatever merges and other operations came before, a form lands on a current identity. */
  lemma FormsReachPrimariesAfterEveryRun(
    db: ActivityModel.Db, steps: seq<ActivityRuns.Step>, desk: RegistrationService.Db,
    form: RegistrationService.Form, ctx: RegistrationService.Context)
    requires Flat(PersonLaws.LinksOf(db.persons)) && ctx.person !in desk.persons
    requires RegistrationService.LinksOf(desk.persons) == PersonLaws.LinksOf(ActivityRuns.Run(db, steps).persons)
    ensures var found := RegistrationService.PersonFor(desk, form, ctx);
      found.person in found.db.persons && found.db.persons[found.person].mergedInto.None?
  {
    ActivityRuns.AliasesFlatAfterEveryRun(db, steps);
    RegistrationService.FormsReachPrimaries(desk, form, ctx);
  }
}
