/** The order lifecycle: the five statuses, the fixed table of allowed transitions
    each status carries, and the parsing of a status name from request text. */
module OrderStatusEnum {

  import opened Wrappers
  import opened JavaText

  datatype OrderStatus = NEW | PROCESSING | COMPLETED | CANCELLED | FAILED

  /** The successors each constant declares. */
  function AllowedTransitions(s: OrderStatus): set<OrderStatus> {
    match s
    case NEW => {PROCESSING, CANCELLED}
    case PROCESSING => {COMPLETED, FAILED, CANCELLED}
    case COMPLETED => {}
    case CANCELLED => {}
    case FAILED => {}
  }

  /** A transition is legal exactly when the target is among the declared successors. */
  predicate CanTransitionTo(s: OrderStatus, target: OrderStatus) {
    target in AllowedTransitions(s)
  }

  predicate IsTerminal(s: OrderStatus) {
    AllowedTransitions(s) == {}
  }

  lemma NewTransitions(t: OrderStatus)
    ensures CanTransitionTo(NEW, t) <==> t == PROCESSING || t == CANCELLED
  {
  }

  lemma ProcessingTransitions(t: OrderStatus)
    ensures CanTransitionTo(PROCESSING, t) <==> t == COMPLETED || t == FAILED || t == CANCELLED
  {
  }

  /** Exactly COMPLETED, CANCELLED and FAILED are terminal: nothing leaves them. */
  lemma TerminalStatuses(s: OrderStatus)
    ensures IsTerminal(s) <==> s == COMPLETED || s == CANCELLED || s == FAILED
    ensures IsTerminal(s) ==> forall t :: !CanTransitionTo(s, t)
  {
  }

  /** Position of a status along the lifecycle; every legal transition raises it. */
  function Stage(s: OrderStatus): (n: nat)
    ensures n <= 2
  {
    match s
    case NEW => 0
    case PROCESSING => 1
    case _ => 2
  }

  lemma TransitionAdvancesStage(s: OrderStatus, t: OrderStatus)
    requires CanTransitionTo(s, t)
    ensures Stage(s) < Stage(t)
    ensures s != t && t != NEW
  {
  }

  /** A sequence of statuses each of which may legally move to the next. */
  ghost predicate IsLifecycle(p: seq<OrderStatus>) {
    forall i :: 0 <= i < |p| - 1 ==> CanTransitionTo(p[i], p[i + 1])
  }

  /** Along a lifecycle every step advances the stage by at least one. */
  lemma {:induction false} LifecycleAdvances(p: seq<OrderStatus>)
    requires IsLifecycle(p) && |p| >= 1
    ensures Stage(p[0]) + |p| - 1 <= Stage(p[|p| - 1])
  {
    if |p| > 1 {
      var tail := p[1..];
      assert IsLifecycle(tail) by {
        forall i | 0 <= i < |tail| - 1
          ensures CanTransitionTo(tail[i], tail[i + 1])
        {
          assert tail[i] == p[i + 1] && tail[i + 1] == p[i + 2];
        }
      }
      LifecycleAdvances(tail);
      TransitionAdvancesStage(p[0], p[1]);
    }
  }

  /** The transition graph is acyclic: no lifecycle of one or more steps returns to
      its first status, and none ever comes back to NEW. */
  lemma Acyclic(p: seq<OrderStatus>)
    requires IsLifecycle(p) && |p| >= 2
    ensures p[0] != p[|p| - 1]
    ensures p[|p| - 1] != NEW
  {
    LifecycleAdvances(p);
  }

  /** An order passes through at most three statuses. */
  lemma LifecycleBounded(p: seq<OrderStatus>)
    requires IsLifecycle(p)
    ensures |p| <= 3
  {
    if |p| >= 1 {
      LifecycleAdvances(p);
    }
  }

  /** The constant's name, as Enum.name() gives it. */
  function Name(s: OrderStatus): string {
    match s
    case NEW => "NEW"
    case PROCESSING => "PROCESSING"
    case COMPLETED => "COMPLETED"
    case CANCELLED => "CANCELLED"
    case FAILED => "FAILED"
  }

  /** OrderStatus.valueOf(key): the constant with that exact name, None where valueOf throws. */
  function ValueOf(key: string): Option<OrderStatus> {
    if key == "NEW" then Some(NEW)
    else if key == "PROCESSING" then Some(PROCESSING)
    else if key == "COMPLETED" then Some(COMPLETED)
    else if key == "CANCELLED" then Some(CANCELLED)
    else if key == "FAILED" then Some(FAILED)
    else None
  }

  /** OrderStatus.valueOf(text.trim().toUpperCase()); None where valueOf throws. */
  function ParseStatus(text: string): Option<OrderStatus> {
    ValueOf(ToUpper(Trim(text)))
  }

  /** Distinct statuses have distinct names. */
  lemma NamesDistinct(s: OrderStatus, t: OrderStatus)
    requires s != t
    ensures Name(s) != Name(t)
  {
    if |Name(s)| == |Name(t)| {
      assert {s, t} == {COMPLETED, CANCELLED};
      assert Name(s)[1] != Name(t)[1];
    }
  }

  /** valueOf finds a constant exactly when the key is that constant's name. */
  lemma ValueOfMeaning(key: string, s: OrderStatus)
    ensures ValueOf(key) == Some(s) <==> key == Name(s)
  {
    match s
    case NEW =>
    case PROCESSING =>
      assert |Name(NEW)| != |Name(PROCESSING)|;
    case COMPLETED =>
      assert |Name(COMPLETED)| !in {|Name(NEW)|, |Name(PROCESSING)|};
    case CANCELLED =>
      NamesDistinct(COMPLETED, CANCELLED);
      assert |Name(CANCELLED)| !in {|Name(NEW)|, |Name(PROCESSING)|};
    case FAILED =>
      assert |Name(FAILED)| !in {|Name(NEW)|, |Name(PROCESSING)|, |Name(COMPLETED)|};
  }

  /** Parsing accepts a name exactly when the trimmed, upper-cased text is that name. */
  lemma {:induction false} ParseStatusMeaning(text: string, s: OrderStatus)
    ensures ParseStatus(text) == Some(s) <==> ToUpper(Trim(text)) == Name(s)
  {
    ValueOfMeaning(ToUpper(Trim(text)), s);
  }

  /** Every name is written in upper-case ASCII letters. */
  lemma NameIsUpper(s: OrderStatus)
    ensures |Name(s)| > 0
    ensures forall i :: 0 <= i < |Name(s)| ==> 'A' <= Name(s)[i] <= 'Z'
  {
    match s
    case NEW =>
    case PROCESSING =>
    case COMPLETED =>
    case CANCELLED =>
    case FAILED =>
  }

  /** Every constant's own name parses back to it. */
  lemma {:induction false} ParseName(s: OrderStatus)
    ensures ParseStatus(Name(s)) == Some(s)
  {
    NameIsUpper(s);
    UpperWordIsCanonical(Name(s));
    ParseStatusMeaning(Name(s), s);
  }
}
