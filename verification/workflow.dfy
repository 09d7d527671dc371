/**
 * The approval chain as one table, and how the client's gate on the review
 * page and the server's gate on PUT /api/modules/:id/status relate to it.
 *
 * The table is an independent statement of the intended workflow: each
 * reviewer role takes a module from one status to the next and is recorded in
 * one attribution column. The review page follows the table exactly. The
 * server accepts every request the page makes, with the effect the table
 * names, but it also accepts requests the page never makes (skips, steps
 * backwards, a reviewer acting at another role's stage): its only gate is the
 * reviewer role.
 */
module Workflow {
  import opened Wrappers
  import opened Types
  import opened Worker
  import opened Validation

  /** One stage of the approval chain. */
  datatype Stage = Stage(reviewer: Role, consumes: Status, produces: Status, stamps: Attribution)

  const Stages: seq<Stage> := [
    Stage(Sergeant, AwaitingSergeant, ValidatedSergeant, ValidatedBy),
    Stage(B3, ValidatedSergeant, ReviewedB3, ReviewedBy),
    Stage(Officer, ReviewedB3, PublishedOfficers, PublishedBy)
  ]

  /**
   * The table is a chain: stage i consumes the status of rank i, produces its
   * successor, and stamps the column the server's switch assigns to that
   * successor.
   */
  lemma StagesFollowStatusOrder(i: nat)
    requires i < |Stages|
    ensures Rank(Stages[i].consumes) == i
    ensures Successor(Stages[i].consumes) == Some(Stages[i].produces)
    ensures AttributionFor(Stages[i].produces) == Some(Stages[i].stamps)
    ensures i + 1 < |Stages| ==> Stages[i + 1].consumes == Stages[i].produces
  {
  }

  /** Each reviewer role owns exactly one stage, and creators own none. */
  lemma {:induction false} StageOfRole(role: Role)
    ensures IsReviewer(role) <==> exists i :: 0 <= i < |Stages| && Stages[i].reviewer == role
    ensures forall i, j :: 0 <= i < |Stages| && 0 <= j < |Stages| && Stages[i].reviewer == Stages[j].reviewer ==> i == j
  {
    if IsReviewer(role) {
      var i := RoleStage(role);
      assert Stages[i].reviewer == role;
    }
  }

  /** The page's `canValidate` offers the action exactly on the table's stages. */
  lemma {:induction false} CanValidateFollowsStages(role: Role, status: Status)
    ensures CanValidate(role, status) <==>
      exists i :: 0 <= i < |Stages| && Stages[i].reviewer == role && Stages[i].consumes == status
  {
    if CanValidate(role, status) {
      var i := RoleStage(role);
      assert Stages[i].reviewer == role && Stages[i].consumes == status;
    }
  }

  /** The status the page requests for a reviewer is the one its stage produces. */
  lemma NextStatusFollowsStages(i: nat, current: Status)
    requires i < |Stages|
    ensures NextStatus(Stages[i].reviewer, current) == Stages[i].produces
  {
  }

  /** At most one role can act on a given status, and nobody acts on a published module. */
  lemma OneActorPerStatus(r1: Role, r2: Role, status: Status)
    requires CanValidate(r1, status) && CanValidate(r2, status)
    ensures r1 == r2 && status != PublishedOfficers
  {
  }

  /**
   * Whatever the page's button requests, the server accepts: the module moves
   * to the successor of its current status, the column of the caller's stage
   * is set to the caller, and the other columns and the module's data stay.
   */
  lemma ServerAcceptsClientAction(t: Tables, a: AuthUser, moduleId: int, now: Timestamp)
    requires CallerRole(t.users, a).Some? && moduleId in t.modules
    requires ReviewAction(CallerRole(t.users, a).value, t.modules[moduleId].status).Some?
    ensures var m := t.modules[moduleId];
      var target := ReviewAction(CallerRole(t.users, a).value, m.status).value;
      var o := StatusUpdateOutcome(t, Some(a), moduleId, StatusBody(target), now);
      && o.response.Ok?
      && Successor(m.status) == Some(o.response.value.status)
      && AttributedTo(o.response.value, AttributionFor(target).value) == Some(a.id)
      && o.after.modules == t.modules[moduleId := o.response.value]
  {
    var target := ReviewAction(CallerRole(t.users, a).value, t.modules[moduleId].status).value;
    StatusBodyRoundTrip(target);
  }

  /** Every request the page can make passes the server's role-and-status check. */
  lemma ClientRequestsPassServerGate(role: Role, status: Status, target: Status)
    requires ReviewAction(role, status) == Some(target)
    ensures IsReviewer(role) && target != AwaitingSergeant
  {
  }

  /**
   * The server's gate is strictly wider than the page's: an officer may
   * publish a module no sergeant has validated, which the page never offers.
   */
  lemma ServerGateWiderThanClientGate(t: Tables, a: AuthUser, moduleId: int, now: Timestamp)
    requires CallerRole(t.users, a) == Some(Officer)
    requires moduleId in t.modules && t.modules[moduleId].status == AwaitingSergeant
    ensures ReviewAction(Officer, AwaitingSergeant).None?
    ensures StatusUpdateOutcome(t, Some(a), moduleId, StatusBody(PublishedOfficers), now).response.Ok?
  {
    StatusBodyRoundTrip(PublishedOfficers);
  }

  /**
   * Three reviewers following the page take a fresh module through the whole
   * chain: it ends published, with each column naming the reviewer of its
   * stage.
   */
  lemma {:induction false} FullApproval(t: Tables, s: AuthUser, b: AuthUser, o: AuthUser, moduleId: int,
                                        now1: Timestamp, now2: Timestamp, now3: Timestamp)
    requires CallerRole(t.users, s) == Some(Sergeant)
    requires CallerRole(t.users, b) == Some(B3)
    requires CallerRole(t.users, o) == Some(Officer)
    requires moduleId in t.modules && t.modules[moduleId].status == AwaitingSergeant
    ensures var o1 := StatusUpdateOutcome(t, Some(s), moduleId, StatusBody(ValidatedSergeant), now1);
      var o2 := StatusUpdateOutcome(o1.after, Some(b), moduleId, StatusBody(ReviewedB3), now2);
      var o3 := StatusUpdateOutcome(o2.after, Some(o), moduleId, StatusBody(PublishedOfficers), now3);
      && o1.response.Ok? && o2.response.Ok? && o3.response.Ok?
      && o3.response.value.status == PublishedOfficers
      && o3.response.value.validatedBy == Some(s.id)
      && o3.response.value.reviewedBy == Some(b.id)
      && o3.response.value.publishedBy == Some(o.id)
  {
    var o1 := StatusUpdateOutcome(t, Some(s), moduleId, StatusBody(ValidatedSergeant), now1);
    ServerAcceptsClientAction(t, s, moduleId, now1);
    assert o1.after.modules[moduleId].status == ValidatedSergeant;
    var o2 := StatusUpdateOutcome(o1.after, Some(b), moduleId, StatusBody(ReviewedB3), now2);
    ServerAcceptsClientAction(o1.after, b, moduleId, now2);
    assert o2.after.modules[moduleId].status == ReviewedB3;
    assert o2.after.modules[moduleId].validatedBy == Some(s.id);
    var o3 := StatusUpdateOutcome(o2.after, Some(o), moduleId, StatusBody(PublishedOfficers), now3);
    ServerAcceptsClientAction(o2.after, o, moduleId, now3);
  }
}
