/**
 * Approvals and rejections of several proposals in any order, as far as one field of one company is
 * concerned: the edits to it lie on each other, and a rejection lifts its own only off the top.
 */
module DecisionOrder {
  import opened Basics
  import opened Proposals

  // ----- what the decisions alone tell ---------------------------------------------------------------

  predicate ApprovesAt(es: seq<Event>, id: string, k: nat) {
    k < |es| && es[k].Approve? && es[k].id == id
  }

  predicate RejectsAt(es: seq<Event>, id: string, k: nat) {
    k < |es| && es[k].Reject? && es[k].id == id
  }

  ghost predicate Approves(es: seq<Event>, id: string) {
    exists k: nat :: ApprovesAt(es, id, k)
  }

  /** Approved, and not rejected since. */
  ghost predicate Open(es: seq<Event>, id: string) {
    exists k: nat :: ApprovesAt(es, id, k) && forall r: nat :: k < r ==> !RejectsAt(es, id, r)
  }

  ghost predicate Later(es: seq<Event>, one: string, two: string) {
    exists j: nat, k: nat :: j < k && ApprovesAt(es, one, j) && ApprovesAt(es, two, k)
  }

  /** The rejection at `k` takes back `one` while `two`, approved after it, stands. */
  ghost predicate OvertakesAt(es: seq<Event>, one: string, two: string, k: nat) {
    RejectsAt(es, one, k) && Open(es[..k], one) && Open(es[..k], two) && Later(es[..k], one, two)
  }

  ghost predicate Overtaken(es: seq<Event>, one: string, two: string) {
    exists k: nat :: OvertakesAt(es, one, two, k)
  }

  /** No proposal is approved a second time. */
  ghost predicate Once(es: seq<Event>) {
    forall id, j: nat, k: nat :: ApprovesAt(es, id, j) && ApprovesAt(es, id, k) ==> j == k
  }

  // ----- one more decision -----------------------------------------------------------------------------

  lemma PushAt(es: seq<Event>, e: Event)
    ensures forall id, k: nat :: ApprovesAt(es + [e], id, k) <==>
      ApprovesAt(es, id, k) || (k == |es| && e.Approve? && e.id == id)
    ensures forall id, k: nat :: RejectsAt(es + [e], id, k) <==>
      RejectsAt(es, id, k) || (k == |es| && e.Reject? && e.id == id)
  {
  }

  lemma OncePush(es: seq<Event>, e: Event)
    requires Once(es + [e])
    ensures Once(es) && (e.Approve? ==> !Approves(es, e.id))
  {
    PushAt(es, e);
    if e.Approve? {
      assert ApprovesAt(es + [e], e.id, |es|);
    }
  }

  lemma ApprovesPush(es: seq<Event>, e: Event, id: string)
    ensures Approves(es + [e], id) <==> Approves(es, id) || (e.Approve? && e.id == id)
  {
    PushAt(es, e);
    assert e.Approve? && e.id == id ==> ApprovesAt(es + [e], id, |es|);
  }

  lemma OpenPush(es: seq<Event>, e: Event, id: string)
    ensures Open(es + [e], id) <==> if e.id == id then e.Approve? else Open(es, id)
  {
    PushAt(es, e);
    if e.Approve? && e.id == id {
      assert ApprovesAt(es + [e], id, |es|) && forall r: nat :: |es| < r ==> !RejectsAt(es + [e], id, r);
    }
    if e.Reject? && e.id == id {
      assert RejectsAt(es + [e], id, |es|);
    }
    if e.id != id && Open(es, id) {
      var k: nat :| ApprovesAt(es, id, k) && forall r: nat :: k < r ==> !RejectsAt(es, id, r);
      assert ApprovesAt(es + [e], id, k);
    }
  }

  lemma OpenApproves(es: seq<Event>, id: string)
    ensures Open(es, id) ==> Approves(es, id)
  {
  }

  lemma LaterPush(es: seq<Event>, e: Event, one: string, two: string)
    ensures Later(es, one, two) ==> Later(es + [e], one, two)
    ensures Approves(es, one) && e.Approve? && e.id == two ==> Later(es + [e], one, two)
    ensures Later(es + [e], one, two) ==> Later(es, one, two) || (Approves(es, one) && e.Approve? && e.id == two)
  {
    PushAt(es, e);
    if Approves(es, one) && e.Approve? && e.id == two {
      var j: nat :| ApprovesAt(es, one, j);
      assert ApprovesAt(es + [e], one, j) && ApprovesAt(es + [e], two, |es|);
    }
    if Later(es, one, two) {
      var j: nat, k: nat :| j < k && ApprovesAt(es, one, j) && ApprovesAt(es, two, k);
      assert ApprovesAt(es + [e], one, j) && ApprovesAt(es + [e], two, k);
    }
  }

  lemma LaterOneWay(es: seq<Event>, one: string, two: string)
    requires Once(es)
    ensures !(Later(es, one, two) && Later(es, two, one)) && !Later(es, one, one)
    ensures Later(es, one, two) ==> Approves(es, one) && Approves(es, two)
  {
  }

  lemma OvertakenPush(es: seq<Event>, e: Event, one: string, two: string)
    ensures Overtaken(es + [e], one, two) <==>
      Overtaken(es, one, two) || (e.Reject? && e.id == one && Open(es, one) && Open(es, two) && Later(es, one, two))
  {
    hide Open, Later;
    PushAt(es, e);
    assert (es + [e])[..|es|] == es;
    forall k: nat | k < |es|
      ensures OvertakesAt(es + [e], one, two, k) <==> OvertakesAt(es, one, two, k)
    {
      assert (es + [e])[..k] == es[..k];
    }
    if e.Reject? && e.id == one && Open(es, one) && Open(es, two) && Later(es, one, two) {
      assert OvertakesAt(es + [e], one, two, |es|);
    }
    if k: nat :| OvertakesAt(es, one, two, k) {
      assert OvertakesAt(es + [e], one, two, k);
    }
  }

  // ----- the edits that lie on a field ------------------------------------------------------------------

  /** The edits of `touching` that lie on their field, the one shown last. A rejection takes its own off
      the top; further down it changes nothing, and the edit stays. */
  ghost function Pile(es: seq<Event>, touching: set<string>): seq<string> {
    if es == [] then []
    else
      var before, e, pile := es[..|es| - 1], es[|es| - 1], Pile(es[..|es| - 1], touching);
      if e.id !in touching then pile
      else if e.Approve? then pile + [e.id]
      else if pile != [] && pile[|pile| - 1] == e.id && Open(before, e.id) then pile[..|pile| - 1]
      else pile
  }

  lemma PilePush(es: seq<Event>, e: Event, touching: set<string>)
    ensures var pile := Pile(es, touching);
      Pile(es + [e], touching) ==
        if e.id !in touching then pile
        else if e.Approve? then pile + [e.id]
        else if pile != [] && pile[|pile| - 1] == e.id && Open(es, e.id) then pile[..|pile| - 1]
        else pile
  {
    assert (es + [e])[..|es|] == es;
  }

  /** An edit that lies on the field though it was rejected. */
  ghost predicate Buried(es: seq<Event>, pile: seq<string>, k: nat) {
    k < |pile| && !Open(es, pile[k])
  }

  ghost predicate OvertakenIn(es: seq<Event>, touching: set<string>, one: string) {
    exists two :: two in touching && Overtaken(es, one, two)
  }

  ghost predicate Ordered(es: seq<Event>, pile: seq<string>) {
    forall k, l :: 0 <= k < l < |pile| ==> Later(es, pile[k], pile[l])
  }

  /** What the pile has to do with the decisions. */
  ghost predicate Piled(es: seq<Event>, touching: set<string>, pile: seq<string>) {
    && Ordered(es, pile)
    && (forall id :: id in pile ==> id in touching && Approves(es, id))
    && (forall id :: id in touching && Open(es, id) ==> id in pile)
    && (forall id :: id in touching && OvertakenIn(es, touching, id) ==> id in pile && !Open(es, id))
    && forall k: nat :: Buried(es, pile, k) ==>
         OvertakenIn(es, touching, pile[k]) || exists l: nat :: k < l && Buried(es, pile, l)
  }

  lemma OvertakenInPush(es: seq<Event>, e: Event, touching: set<string>, one: string)
    ensures OvertakenIn(es, touching, one) ==> OvertakenIn(es + [e], touching, one)
    ensures !(e.Reject? && e.id == one) ==> (OvertakenIn(es + [e], touching, one) ==> OvertakenIn(es, touching, one))
  {
    hide Overtaken, Open, Later;
    forall two
      ensures Overtaken(es, one, two) ==> Overtaken(es + [e], one, two)
      ensures !(e.Reject? && e.id == one) ==> (Overtaken(es + [e], one, two) ==> Overtaken(es, one, two))
    {
      OvertakenPush(es, e, one, two);
    }
  }

  lemma OvertakenApproves(es: seq<Event>, touching: set<string>, one: string)
    ensures OvertakenIn(es, touching, one) ==> Approves(es, one)
  {
    if two :| two in touching && Overtaken(es, one, two) {
      var k: nat :| OvertakesAt(es, one, two, k);
      OpenApproves(es[..k], one);
      var j: nat :| ApprovesAt(es[..k], one, j);
      assert ApprovesAt(es, one, j);
    }
  }

  lemma OrderedPush(es: seq<Event>, e: Event, pile: seq<string>)
    requires Ordered(es, pile)
    ensures Ordered(es + [e], pile)
  {
    hide Later;
    forall k, l | 0 <= k < l < |pile| ensures Later(es + [e], pile[k], pile[l]) {
      LaterPush(es, e, pile[k], pile[l]);
    }
  }

  lemma Pushed(es: seq<Event>, e: Event, touching: set<string>)
    ensures forall id :: Approves(es + [e], id) <==> Approves(es, id) || (e.Approve? && e.id == id)
    ensures forall id :: Open(es + [e], id) <==> if e.id == id then e.Approve? else Open(es, id)
    ensures forall id :: OvertakenIn(es, touching, id) ==> OvertakenIn(es + [e], touching, id)
    ensures forall id :: OvertakenIn(es + [e], touching, id) ==>
      OvertakenIn(es, touching, id) || (e.Reject? && e.id == id)
  {
    hide Approves, Open, OvertakenIn;
    forall id
      ensures Approves(es + [e], id) <==> Approves(es, id) || (e.Approve? && e.id == id)
    {
      ApprovesPush(es, e, id);
    }
    forall id
      ensures Open(es + [e], id) <==> if e.id == id then e.Approve? else Open(es, id)
    {
      OpenPush(es, e, id);
    }
    forall id
      ensures OvertakenIn(es, touching, id) ==> OvertakenIn(es + [e], touching, id)
      ensures OvertakenIn(es + [e], touching, id) ==> OvertakenIn(es, touching, id) || (e.Reject? && e.id == id)
    {
      OvertakenInPush(es, e, touching, id);
    }
  }

  /** A decision that leaves the pile, and what is open of it, alone. */
  lemma PiledElsewhere(es: seq<Event>, e: Event, touching: set<string>, pile: seq<string>)
    requires Piled(es, touching, pile) && e.id !in touching
    ensures Piled(es + [e], touching, pile)
  {
    hide Approves, Open, OvertakenIn, Ordered;
    OrderedPush(es, e, pile);
    Pushed(es, e, touching);
    forall k: nat ensures Buried(es + [e], pile, k) <==> Buried(es, pile, k) {
    }
  }

  lemma PiledApproval(es: seq<Event>, e: Event, touching: set<string>, pile: seq<string>)
    requires Piled(es, touching, pile) && e.id in touching && e.Approve? && !Approves(es, e.id)
    ensures Piled(es + [e], touching, pile + [e.id])
  {
    hide Approves, Open, OvertakenIn, Later;
    var pile' := pile + [e.id];
    Pushed(es, e, touching);
    OvertakenApproves(es, touching, e.id);
    forall k, l | 0 <= k < l < |pile'| ensures Later(es + [e], pile'[k], pile'[l]) {
      LaterPush(es, e, pile'[k], pile'[l]);
    }
    forall k: nat ensures Buried(es + [e], pile', k) <==> Buried(es, pile, k) {
      if k < |pile| {
        assert pile'[k] == pile[k];
      }
    }
  }

  /** Of two edits on the pile the higher was approved later, so nothing lies on the pile twice. */
  lemma PileDistinct(es: seq<Event>, pile: seq<string>)
    requires Once(es) && Ordered(es, pile)
    ensures forall k, l :: 0 <= k < |pile| && 0 <= l < |pile| && pile[k] == pile[l] ==> k == l
  {
    hide Later, Once;
    forall id ensures !Later(es, id, id) {
      LaterOneWay(es, id, id);
    }
  }

  lemma NothingLater(es: seq<Event>, touching: set<string>, pile: seq<string>, two: string)
    requires Once(es) && Piled(es, touching, pile) && pile != [] && two in touching && Open(es, two)
    ensures !Later(es, pile[|pile| - 1], two)
  {
    hide Later, Once, Open, OvertakenIn;
    var top := pile[|pile| - 1];
    var k :| 0 <= k < |pile| && pile[k] == two;
    LaterOneWay(es, top, two);
  }

  lemma PiledLift(es: seq<Event>, e: Event, touching: set<string>, pile: seq<string>)
    requires Once(es) && Piled(es, touching, pile) && e.id in touching && e.Reject?
    requires pile != [] && pile[|pile| - 1] == e.id && Open(es, e.id)
    ensures Piled(es + [e], touching, pile[..|pile| - 1])
  {
    hide Approves, Open, OvertakenIn, Later, Once;
    var n := |pile| - 1;
    var rest := pile[..n];
    assert pile == rest + [e.id];
    PileDistinct(es, pile);
    OrderedPush(es, e, pile);
    Pushed(es, e, touching);
    NotOvertakenOnTop(es, e, touching, pile);
    forall k: nat ensures Buried(es + [e], rest, k) <==> k < n && Buried(es, pile, k) {
    }
    assert !Buried(es, pile, n);
  }

  lemma NotOvertakenOnTop(es: seq<Event>, e: Event, touching: set<string>, pile: seq<string>)
    requires Once(es) && Piled(es, touching, pile) && e.id in touching && e.Reject?
    requires pile != [] && pile[|pile| - 1] == e.id && Open(es, e.id)
    ensures !OvertakenIn(es + [e], touching, e.id)
  {
    hide Approves, Open, Later, Once, Overtaken;
    forall two | two in touching ensures !Overtaken(es + [e], e.id, two) {
      OvertakenPush(es, e, e.id, two);
      assert !OvertakenIn(es, touching, e.id);
      if Open(es, two) {
        NothingLater(es, touching, pile, two);
      }
    }
  }

  lemma PiledStuck(es: seq<Event>, e: Event, touching: set<string>, pile: seq<string>)
    requires Once(es) && Piled(es, touching, pile) && e.id in touching && e.Reject?
    requires !(pile != [] && pile[|pile| - 1] == e.id && Open(es, e.id))
    ensures Piled(es + [e], touching, pile)
  {
    hide Approves, Open, OvertakenIn, Later, Once;
    OrderedPush(es, e, pile);
    Pushed(es, e, touching);
    forall k: nat | Buried(es, pile, k) ensures Buried(es + [e], pile, k) {
    }
    OvertakenStays(es, e, touching, pile);
    forall k: nat | Buried(es + [e], pile, k)
      ensures OvertakenIn(es + [e], touching, pile[k]) || exists l: nat :: k < l && Buried(es + [e], pile, l)
    {
      if Buried(es, pile, k) {
        if l: nat :| k < l && Buried(es, pile, l) {
          assert Buried(es + [e], pile, l);
        }
      } else {
        PassedOver(es, e, touching, pile, k);
      }
    }
  }

  lemma OvertakenStays(es: seq<Event>, e: Event, touching: set<string>, pile: seq<string>)
    requires Once(es) && Piled(es, touching, pile) && e.id in touching && e.Reject?
    ensures forall id :: id in touching && OvertakenIn(es + [e], touching, id) ==> id in pile && !Open(es + [e], id)
  {
    hide Approves, Open, Later, Once, Overtaken, Ordered;
    forall id | id in touching && OvertakenIn(es + [e], touching, id)
      ensures id in pile && !Open(es + [e], id)
    {
      OpenPush(es, e, id);
      if !OvertakenIn(es, touching, id) {
        var two :| two in touching && Overtaken(es + [e], id, two);
        OvertakenPush(es, e, id, two);
      }
    }
  }

  /** Taken back below the top: by an open edit on top, or under one that is buried itself. */
  lemma PassedOver(es: seq<Event>, e: Event, touching: set<string>, pile: seq<string>, k: nat)
    requires Once(es) && Piled(es, touching, pile) && e.id in touching && e.Reject?
    requires k < |pile| - 1 && pile[k] == e.id && Open(es, e.id)
    ensures OvertakenIn(es + [e], touching, e.id) || exists l: nat :: k < l && Buried(es + [e], pile, l)
  {
    hide Approves, Later, Once, Overtaken, Open;
    var n := |pile| - 1;
    var top := pile[n];
    PileDistinct(es, pile);
    OpenPush(es, e, top);
    if Open(es, top) {
      OvertakenPush(es, e, e.id, top);
      assert Overtaken(es + [e], e.id, top);
    } else {
      assert Buried(es + [e], pile, n);
    }
  }

  /** The pile in every order of decisions. */
  lemma {:induction false} PileIsPiled(es: seq<Event>, touching: set<string>)
    requires Once(es)
    ensures Piled(es, touching, Pile(es, touching))
  {
    hide Piled, Open, Once, Approves;
    if es == [] {
      NothingPiled(touching);
    } else {
      var before, e := es[..|es| - 1], es[|es| - 1];
      assert es == before + [e];
      OncePush(before, e);
      PileIsPiled(before, touching);
      PilePush(before, e, touching);
      var pile := Pile(before, touching);
      if e.id !in touching {
        PiledElsewhere(before, e, touching, pile);
      } else if e.Approve? {
        PiledApproval(before, e, touching, pile);
      } else if pile != [] && pile[|pile| - 1] == e.id && Open(before, e.id) {
        PiledLift(before, e, touching, pile);
      } else {
        PiledStuck(before, e, touching, pile);
      }
    }
  }

  lemma NothingPiled(touching: set<string>)
    ensures Piled([], touching, [])
  {
  }

  // ----- what the pile comes to ---------------------------------------------------------------------------

  /** Where anything is buried, the highest such edit was overtaken. */
  lemma {:induction false} BuriedMeansOvertaken(es: seq<Event>, touching: set<string>, pile: seq<string>, k: nat)
    requires Piled(es, touching, pile) && Buried(es, pile, k)
    ensures exists one :: one in touching && OvertakenIn(es, touching, one)
    decreases |pile| - k
  {
    hide Open, OvertakenIn, Ordered;
    if !OvertakenIn(es, touching, pile[k]) {
      var l: nat :| k < l && Buried(es, pile, l);
      BuriedMeansOvertaken(es, touching, pile, l);
    }
  }

  /** Nothing lies on the field exactly when no edit of it stands and none was overtaken. */
  lemma PileEmptyExactlyWhen(es: seq<Event>, touching: set<string>)
    requires Once(es)
    ensures Pile(es, touching) == [] <==>
      forall one :: one in touching ==> !Open(es, one) && !OvertakenIn(es, touching, one)
  {
    hide Open, OvertakenIn, Ordered, Once;
    var pile := Pile(es, touching);
    PileIsPiled(es, touching);
    if pile != [] && forall one :: one in touching ==> !Open(es, one) && !OvertakenIn(es, touching, one) {
      assert Buried(es, pile, 0);
      BuriedMeansOvertaken(es, touching, pile, 0);
    }
  }

  /** An overtaken edit after which nothing that was approved still stands: it has come to light again. */
  ghost predicate Uncovered(es: seq<Event>, touching: set<string>, one: string) {
    && one in touching && OvertakenIn(es, touching, one)
    && forall two :: two in touching && Later(es, one, two) ==> !Open(es, two)
  }

  /** A rejected edit lies on top exactly when one has come to light again. */
  lemma TopBuriedExactlyWhen(es: seq<Event>, touching: set<string>)
    requires Once(es)
    ensures var pile := Pile(es, touching);
      pile != [] && !Open(es, pile[|pile| - 1]) <==> exists one :: Uncovered(es, touching, one)
  {
    hide Open, OvertakenIn, Once, Later;
    var pile := Pile(es, touching);
    var n := |pile| - 1;
    PileIsPiled(es, touching);
    if pile != [] && !Open(es, pile[n]) {
      assert Buried(es, pile, n);
      forall two | two in touching && Later(es, pile[n], two) ensures !Open(es, two) {
        if Open(es, two) {
          NothingLater(es, touching, pile, two);
        }
      }
      assert Uncovered(es, touching, pile[n]);
    }
    if one :| Uncovered(es, touching, one) {
      var k :| 0 <= k < |pile| && pile[k] == one;
      assert k < n ==> Later(es, one, pile[n]);
    }
  }
}
