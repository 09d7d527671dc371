/**
 * The review page of the web client (`src/react-app/pages/ValidationPage.tsx`):
 * who may open it, which modules it offers an action on, which status that
 * action requests, and the labels it shows. These are the client's own gates;
 * the server's gate is `Worker.StatusUpdateOutcome`, and module `Workflow`
 * relates the two.
 */
module Validation {
  import opened Wrappers
  import opened Types

  /** What the page renders for a signed-in user. */
  datatype PageView = NoPermission | ReviewQueue

  /** The page opens only for the roles whose names are on its list of reviewer roles. */
  function PageFor(role: Role): (v: PageView)
    ensures v == ReviewQueue <==> IsReviewer(role)
  {
    if RoleName(role) in ["ROLE_SERGEANT", "ROLE_B3", "ROLE_OFFICER"] then ReviewQueue else NoPermission
  }

  /**
   * Whether the page offers its action button on a module: each reviewer role
   * acts on exactly the status that precedes its own stage, and never on a
   * published module.
   */
  function CanValidate(role: Role, status: Status): (b: bool)
    ensures b ==> IsReviewer(role) && status != PublishedOfficers
    ensures b ==> Rank(status) == RoleStage(role)
  {
    match role
    case Sergeant => status == AwaitingSergeant
    case B3 => status == ValidatedSergeant
    case Officer => status == ReviewedB3
    case _ => false
  }

  /** The position in the approval order of the status a role acts on; creators have none below 3. */
  function RoleStage(role: Role): (n: nat)
    ensures n < 3 <==> IsReviewer(role)
  {
    match role
    case Sergeant => 0
    case B3 => 1
    case Officer => 2
    case _ => 3
  }

  /**
   * The status the action button requests. A reviewer always requests the
   * status of its own stage, whatever the module's current status; any other
   * role gets the module's current status back.
   */
  function NextStatus(role: Role, current: Status): (s: Status)
    ensures !IsReviewer(role) ==> s == current
    ensures IsReviewer(role) ==> s != AwaitingSergeant && Rank(s) == RoleStage(role) + 1
    ensures CanValidate(role, current) ==> Successor(current) == Some(s)
  {
    match role
    case Sergeant => ValidatedSergeant
    case B3 => ReviewedB3
    case Officer => PublishedOfficers
    case _ => current
  }

  /** The caption of the action button. */
  function ActionLabel(role: Role): (caption: string)
    ensures caption == "Visualizar" <==> !IsReviewer(role)
  {
    match role
    case Sergeant => "Validar"
    case B3 => "Revisar"
    case Officer => "Publicar"
    case _ => "Visualizar"
  }

  /** Distinct reviewer roles see distinct captions. */
  lemma ActionLabelsDistinct(r1: Role, r2: Role)
    requires IsReviewer(r1) && IsReviewer(r2) && r1 != r2
    ensures ActionLabel(r1) != ActionLabel(r2)
  {
  }

  /**
   * The caption shown for a stored status string: each of the four status
   * names has its own Portuguese caption, and any other string is shown as is.
   */
  function StatusLabel(s: string): (caption: string)
    ensures ParseStatus(s).None? <==> caption == s
  {
    if s == "AWAITING_SERGEANT" then "Aguardando Sargento"
    else if s == "VALIDATED_SERGEANT" then "Validado pelo Sargento"
    else if s == "REVIEWED_B3" then "Revisado pela B3"
    else if s == "PUBLISHED_OFFICERS" then "Publicado para Oficiais"
    else s
  }

  /** Distinct statuses are shown with distinct captions. */
  lemma StatusLabelsDistinct(s1: Status, s2: Status)
    requires s1 != s2
    ensures StatusLabel(StatusName(s1)) != StatusLabel(StatusName(s2))
  {
  }

  /**
   * The button on the detail panel: shown only when the role may act on the
   * module's status, and its click requests `NextStatus`. The request it makes,
   * if any, is the next status of the approval order.
   */
  function ReviewAction(role: Role, status: Status): (r: Option<Status>)
    ensures r.Some? <==> CanValidate(role, status)
    ensures r.Some? ==> Successor(status) == r && IsReviewer(role)
  {
    if CanValidate(role, status) then Some(NextStatus(role, status)) else None
  }
}
