/**
 * The goroutines of one generated list function, step by step: the shared
 * slice `ret`, the WaitGroup, the deferred Done and recover of each element,
 * and the main line that spawns, waits, scans and returns.
 */
module ListSchedule {
  import opened Core
  import opened GraphqlSpec

  /** What marshalling one element does. */
  datatype Elem = Yields(tree: Tree) | Blows

  /** A slot of `ret`; it is a nil interface until written. */
  datatype Cell = Unset | Put(tree: Tree)

  /**
   * Where the goroutine of one element stands. Deferred calls run last in,
   * first out: after a panic wg.Done runs before the recovering function.
   */
  datatype Stage = Unspawned | Running | Wrote | Panicked | Recovering | Finished

  datatype Reply = NullReply | ArrayReply(cells: seq<Cell>)

  datatype Main =
    | Spawning(next: nat)
    | Joining
    | Waiting
    | Scanning(view: seq<Cell>, k: nat)
    | Returned(reply: Reply)

  /** `ret` is None once a recovering goroutine has set it to nil. */
  datatype State = State(ret: Option<seq<Cell>>, wg: int, stages: seq<Stage>, main: Main)

  datatype Actor = MainLine | Goroutine(i: nat)

  function Init(elems: seq<Elem>): State {
    var n := |elems|;
    State(Some(seq(n, _ => Unset)), if n == 1 then 0 else n, seq(n, _ => Unspawned), Spawning(0))
  }

  predicate Enabled(elems: seq<Elem>, s: State, a: Actor) {
    match a
    case MainLine =>
      (match s.main
       case Spawning(_) => true
       case Joining => |s.stages| == 1 && s.stages[0].Finished?
       case Waiting => s.wg == 0
       case Scanning(_, _) => true
       case Returned(_) => false)
    case Goroutine(i) =>
      i < |s.stages| && i < |elems| && !s.stages[i].Unspawned? && !s.stages[i].Finished?
  }

  function MainStep(s: State): State {
    match s.main
    case Spawning(k) =>
      if k < |s.stages| then
        // with a single element f(i) is called, not spawned
        s.(stages := s.stages[k := Running], main := if |s.stages| == 1 then Joining else Spawning(k + 1))
      else s.(main := Waiting)
    case Joining => s.(main := Waiting)
    case Waiting => s.(main := Scanning(if s.ret.Some? then s.ret.value else [], 0))
    case Scanning(view, k) =>
      if k < |view| then
        if view[k] == Put(Null) then s.(main := Returned(NullReply)) else s.(main := Scanning(view, k + 1))
      else s.(main := Returned(ArrayReply(if s.ret.Some? then s.ret.value else [])))
    case Returned(_) => s
  }

  function GoStep(elems: seq<Elem>, s: State, i: nat): State
    requires i < |s.stages| && i < |elems|
  {
    var wg' := if |s.stages| == 1 then s.wg else s.wg - 1;
    match s.stages[i]
    case Running =>
      if elems[i].Yields? && s.ret.Some? && i < |s.ret.value|
      then s.(ret := Some(s.ret.value[i := Put(elems[i].tree)]), stages := s.stages[i := Wrote])
      else s.(stages := s.stages[i := Panicked])
    case Wrote => s.(wg := wg', stages := s.stages[i := Finished])
    case Panicked => s.(wg := wg', stages := s.stages[i := Recovering])
    case Recovering => s.(ret := None, stages := s.stages[i := Finished])
    case _ => s
  }

  function Step(elems: seq<Elem>, s: State, a: Actor): State
    requires Enabled(elems, s, a)
  {
    match a
    case MainLine => MainStep(s)
    case Goroutine(i) => GoStep(elems, s, i)
  }

  /** The schedule is possible from s and leads to t. */
  predicate Leads(elems: seq<Elem>, s: State, acts: seq<Actor>, t: State)
    decreases |acts|
  {
    if acts == [] then s == t
    else Enabled(elems, s, acts[0]) && Leads(elems, Step(elems, s, acts[0]), acts[1..], t)
  }

  /** The list as section 6.4.4 has it: null if any element is null or failed, else every element in order. */
  function Expected(elems: seq<Elem>): Reply {
    if exists i :: 0 <= i < |elems| && (elems[i].Blows? || elems[i].tree.Null?) then NullReply
    else ArrayReply(seq(|elems|, i requires 0 <= i < |elems| && elems[i].Yields? => Put(elems[i].tree)))
  }

  // ---------- What every schedule keeps ----------

  /** Goroutines that have yet to call wg.Done. */
  function Pending(stages: seq<Stage>): nat {
    if stages == [] then 0
    else Pending(stages[1..]) + if stages[0].Finished? || stages[0].Recovering? then 0 else 1
  }

  predicate Idle(g: Stage) {
    g.Finished? || g.Recovering?
  }

  lemma {:induction false} PendingUpdate(stages: seq<Stage>, i: nat, g: Stage)
    requires i < |stages|
    ensures Pending(stages[i := g])
         == Pending(stages) - (if Idle(stages[i]) then 0 else 1) + if Idle(g) then 0 else 1
  {
    if i == 0 {
      assert stages[i := g][1..] == stages[1..];
    } else {
      assert stages[i := g][1..] == stages[1..][i - 1 := g];
      PendingUpdate(stages[1..], i - 1, g);
    }
  }

  lemma {:induction false} PendingPositive(stages: seq<Stage>, i: nat)
    requires i < |stages| && !Idle(stages[i])
    ensures Pending(stages) > 0
  {
    if i > 0 {
      PendingPositive(stages[1..], i - 1);
    }
  }

  lemma {:induction false} PendingFresh(n: nat)
    ensures Pending(seq(n, _ => Unspawned)) == n
  {
    if n > 0 {
      assert seq(n, _ => Unspawned)[1..] == seq(n - 1, _ => Unspawned);
      PendingFresh(n - 1);
    }
  }

  ghost predicate Inv(elems: seq<Elem>, s: State) {
    var n := |elems|;
    && |s.stages| == n
    && (s.ret.Some? ==> |s.ret.value| == n)
    && s.wg == (if n == 1 then 0 else Pending(s.stages))
    && (match s.main
        case Spawning(k) => k <= n && (n == 1 ==> k == 0) && forall i :: 0 <= i < n ==>
            (s.stages[i].Unspawned? <==> i >= k)
        case Joining => n == 1 && !s.stages[0].Unspawned?
        case Waiting => (forall i :: 0 <= i < n ==> !s.stages[i].Unspawned?) && (n == 1 ==> s.stages[0].Finished?)
        case Scanning(view, k) => k <= |view| <= n && forall i :: 0 <= i < n ==> Idle(s.stages[i])
        case Returned(_) => forall i :: 0 <= i < n ==> Idle(s.stages[i]))
  }

  lemma InitInv(elems: seq<Elem>)
    ensures Inv(elems, Init(elems))
  {
    PendingFresh(|elems|);
    assert Init(elems).stages == seq(|elems|, _ => Unspawned);
  }

  lemma StepInv(elems: seq<Elem>, s: State, a: Actor)
    requires Inv(elems, s) && Enabled(elems, s, a)
    ensures Inv(elems, Step(elems, s, a))
  {
    hide Pending;
    match a
    case MainLine =>
      if s.main.Spawning? && s.main.next < |elems| {
        PendingUpdate(s.stages, s.main.next, Running);
      }
      if s.main.Waiting? && |elems| != 1 {
        forall i | 0 <= i < |elems| ensures Idle(s.stages[i]) {
          if !Idle(s.stages[i]) {
            PendingPositive(s.stages, i);
            assert false;
          }
        }
      }
    case Goroutine(i) =>
      PendingUpdate(s.stages, i, Step(elems, s, a).stages[i]);
      assert Step(elems, s, a).stages == s.stages[i := Step(elems, s, a).stages[i]];
  }

  // ---------- Without a panicking element every schedule gives the sequential result ----------

  predicate NoPanic(elems: seq<Elem>) {
    forall i :: 0 <= i < |elems| ==> elems[i].Yields?
  }

  function Cells(elems: seq<Elem>): seq<Cell>
    requires NoPanic(elems)
  {
    seq(|elems|, i requires 0 <= i < |elems| => Put(elems[i].tree))
  }

  ghost predicate CleanInv(elems: seq<Elem>, s: State)
    requires NoPanic(elems)
  {
    && Inv(elems, s)
    && s.ret.Some?
    && (forall i :: 0 <= i < |elems| ==>
        && !s.stages[i].Panicked? && !s.stages[i].Recovering?
        && (s.stages[i].Wrote? || s.stages[i].Finished? ==> s.ret.value[i] == Put(elems[i].tree)))
    && (s.main.Scanning? ==>
        s.main.view == Cells(elems) && forall j :: 0 <= j < s.main.k ==> elems[j].tree != Null)
    && (s.main.Returned? ==> s.main.reply == Expected(elems))
  }

  lemma StepCleanInv(elems: seq<Elem>, s: State, a: Actor)
    requires NoPanic(elems) && CleanInv(elems, s) && Enabled(elems, s, a)
    ensures CleanInv(elems, Step(elems, s, a))
  {
    StepInv(elems, s, a);
    hide Pending;
    if a.MainLine? && (s.main.Waiting? || s.main.Scanning?) {
      AllWritten(elems, Step(elems, s, a));
    }
  }

  /** Past the wait every element has been written. */
  lemma AllWritten(elems: seq<Elem>, s: State)
    requires NoPanic(elems) && Inv(elems, s) && s.ret.Some?
    requires s.main.Scanning? || s.main.Returned?
    requires forall i :: 0 <= i < |elems| ==>
      !s.stages[i].Recovering? && (s.stages[i].Finished? ==> s.ret.value[i] == Put(elems[i].tree))
    ensures s.ret.value == Cells(elems)
  {
  }

  lemma {:induction false} RunCleanInv(elems: seq<Elem>, s: State, acts: seq<Actor>, t: State)
    requires NoPanic(elems) && CleanInv(elems, s) && Leads(elems, s, acts, t)
    ensures CleanInv(elems, t)
    decreases |acts|
  {
    if acts != [] {
      StepCleanInv(elems, s, acts[0]);
      RunCleanInv(elems, Step(elems, s, acts[0]), acts[1..], t);
    }
  }

  /**
   * However the goroutines interleave, the function returns the sequential
   * result, and only after every element has been marshalled and written.
   */
  lemma EveryScheduleAgrees(elems: seq<Elem>, acts: seq<Actor>, t: State)
    requires NoPanic(elems)
    requires Leads(elems, Init(elems), acts, t) && t.main.Returned?
    ensures t.main.reply == Expected(elems)
    ensures t.ret == Some(Cells(elems)) && t.stages == seq(|elems|, _ => Finished)
  {
    InitInv(elems);
    RunCleanInv(elems, Init(elems), acts, t);
    assert forall i :: 0 <= i < |elems| ==> Idle(t.stages[i]);
    AllWritten(elems, t);
    assert t.stages == seq(|elems|, _ => Finished);
  }

  // ---------- No deadlock, and no schedule runs for ever ----------

  function Left(g: Stage): nat {
    match g
    case Unspawned => 4
    case Running => 3
    case Panicked => 2
    case Wrote => 1
    case Recovering => 1
    case Finished => 0
  }

  function AllLeft(stages: seq<Stage>): nat {
    if stages == [] then 0 else Left(stages[0]) + AllLeft(stages[1..])
  }

  function MainLeft(n: nat, m: Main): int {
    match m
    case Spawning(k) => 2 * n + 4 - k
    case Joining => n + 3
    case Waiting => n + 2
    case Scanning(view, k) => |view| - k + 1
    case Returned(_) => 0
  }

  function Measure(s: State): int {
    MainLeft(|s.stages|, s.main) + AllLeft(s.stages)
  }

  lemma {:induction false} LeftUpdate(stages: seq<Stage>, i: nat, g: Stage)
    requires i < |stages|
    ensures AllLeft(stages[i := g]) == AllLeft(stages) - Left(stages[i]) + Left(g)
  {
    if i == 0 {
      assert stages[i := g][1..] == stages[1..];
    } else {
      assert stages[i := g][1..] == stages[1..][i - 1 := g];
      LeftUpdate(stages[1..], i - 1, g);
    }
  }

  lemma {:induction false} FreshLeft(n: nat)
    ensures AllLeft(seq(n, _ => Unspawned)) == 4 * n
  {
    if n > 0 {
      assert seq(n, _ => Unspawned)[1..] == seq(n - 1, _ => Unspawned);
      FreshLeft(n - 1);
    }
  }

  lemma StepShrinks(elems: seq<Elem>, s: State, a: Actor)
    requires Inv(elems, s) && Enabled(elems, s, a)
    ensures 0 <= Measure(Step(elems, s, a)) < Measure(s)
  {
    StepInv(elems, s, a);
    hide Pending, AllLeft;
    match a
    case MainLine =>
      if s.main.Spawning? && s.main.next < |elems| {
        LeftUpdate(s.stages, s.main.next, Running);
      }
    case Goroutine(i) =>
      LeftUpdate(s.stages, i, Step(elems, s, a).stages[i]);
      assert Step(elems, s, a).stages == s.stages[i := Step(elems, s, a).stages[i]];
  }

  lemma {:induction false} SomePending(stages: seq<Stage>) returns (i: nat)
    requires Pending(stages) > 0
    ensures i < |stages| && !Idle(stages[i])
  {
    i := 0;
    if Idle(stages[0]) {
      i := SomePending(stages[1..]);
      i := i + 1;
    }
  }

  /** Until it has returned, the function can always take a step: the wait never hangs. */
  lemma NeverStuck(elems: seq<Elem>, s: State) returns (a: Actor)
    requires Inv(elems, s) && !s.main.Returned?
    ensures Enabled(elems, s, a)
  {
    a := MainLine;
    if s.main.Joining? && !s.stages[0].Finished? {
      a := Goroutine(0);
    } else if s.main.Waiting? && s.wg != 0 {
      var i := SomePending(s.stages);
      a := Goroutine(i);
    }
  }

  lemma {:induction false} RunShrinks(elems: seq<Elem>, s: State, acts: seq<Actor>, t: State)
    requires Inv(elems, s) && Leads(elems, s, acts, t)
    ensures Inv(elems, t)
    ensures acts != [] ==> 0 <= Measure(t) && |acts| + Measure(t) <= Measure(s)
    decreases |acts|
  {
    if acts != [] {
      StepInv(elems, s, acts[0]);
      StepShrinks(elems, s, acts[0]);
      RunShrinks(elems, Step(elems, s, acts[0]), acts[1..], t);
    }
  }

  /** Panics or not, every schedule ends within a bound linear in the length, and it can only end by returning. */
  lemma EveryScheduleEnds(elems: seq<Elem>, acts: seq<Actor>, t: State)
    requires Leads(elems, Init(elems), acts, t)
    ensures |acts| <= 6 * |elems| + 4
    ensures (forall a :: !Enabled(elems, t, a)) ==> t.main.Returned?
  {
    InitInv(elems);
    RunShrinks(elems, Init(elems), acts, t);
    FreshLeft(|elems|);
    assert Init(elems).stages == seq(|elems|, _ => Unspawned);
    if !t.main.Returned? {
      var a := NeverStuck(elems, t);
      assert Enabled(elems, t, a);
    }
  }

  // ---------- With a panicking element some schedule loses the null ----------

  /** `ret` has been set to nil before the scan began, so an empty array is on its way. */
  ghost predicate Lost(elems: seq<Elem>, s: State) {
    && Inv(elems, s) && s.ret.None?
    && (s.main.Scanning? ==> s.main.view == [])
    && (s.main.Returned? ==> s.main.reply == ArrayReply([]))
  }

  lemma {:induction false} LostForGood(elems: seq<Elem>, s: State) returns (acts: seq<Actor>, t: State)
    requires Lost(elems, s)
    ensures Leads(elems, s, acts, t) && t.main.Returned? && t.main.reply == ArrayReply([])
    decreases Measure(s)
  {
    if s.main.Returned? {
      return [], s;
    }
    var a := NeverStuck(elems, s);
    StepInv(elems, s, a);
    StepShrinks(elems, s, a);
    assert Measure(s) > 0;
    var rest, end := LostForGood(elems, Step(elems, s, a));
    assert ([a] + rest)[1..] == rest;
    return [a] + rest, end;
  }

  lemma {:induction false} LeadsThen(elems: seq<Elem>, s: State, acts: seq<Actor>, t: State, more: seq<Actor>, u: State)
    requires Leads(elems, s, acts, t) && Leads(elems, t, more, u)
    ensures Leads(elems, s, acts + more, u)
    decreases |acts|
  {
    if acts == [] {
      assert acts + more == more;
    } else {
      LeadsThen(elems, Step(elems, s, acts[0]), acts[1..], t, more, u);
      assert (acts + more)[1..] == acts[1..] + more;
    }
  }

  /** Spawning the first b + 1 elements gets element b running while `ret` is still whole. */
  lemma {:induction false} SpawnUpTo(elems: seq<Elem>, b: nat) returns (acts: seq<Actor>, t: State)
    requires b < |elems|
    ensures Leads(elems, Init(elems), acts, t) && Inv(elems, t)
    ensures t.stages[b] == Running && t.ret.Some? && (t.main.Spawning? || t.main.Joining?)
    ensures |elems| > 1 ==> t.main == Spawning(b + 1)
  {
    var s := Init(elems);
    acts := [];
    InitInv(elems);
    if b > 0 {
      acts, s := SpawnUpTo(elems, b - 1);
    }
    t := Step(elems, s, MainLine);
    StepInv(elems, s, MainLine);
    assert Leads(elems, t, [], t);
    assert Leads(elems, s, [MainLine], t);
    LeadsThen(elems, Init(elems), acts, s, [MainLine], t);
    acts := acts + [MainLine];
  }

  /** An element that panics can leave the caller an empty array where the specification has null. */
  lemma PanicCanLoseTheNull(elems: seq<Elem>, b: nat) returns (acts: seq<Actor>, t: State)
    requires b < |elems| && elems[b].Blows?
    ensures Leads(elems, Init(elems), acts, t) && t.main.Returned?
    ensures t.main.reply == ArrayReply([]) && Expected(elems) == NullReply
  {
    var spawn, s := SpawnUpTo(elems, b);
    var go := Goroutine(b);
    var s1 := Step(elems, s, go);
    var s2 := Step(elems, s1, go);
    var s3 := Step(elems, s2, go);
    StepInv(elems, s, go);
    StepInv(elems, s1, go);
    StepInv(elems, s2, go);
    hide Inv, Pending;
    assert s1.stages[b] == Panicked && s2.stages[b] == Recovering;
    assert Lost(elems, s3);
    assert Leads(elems, s3, [], s3);
    assert Leads(elems, s2, [go], s3);
    assert [go, go][1..] == [go] && [go, go, go][1..] == [go, go];
    assert Leads(elems, s1, [go, go], s3);
    assert Leads(elems, s, [go, go, go], s3);
    var rest, end := LostForGood(elems, s3);
    LeadsThen(elems, Init(elems), spawn, s, [go, go, go], s3);
    LeadsThen(elems, Init(elems), spawn + [go, go, go], s3, rest, end);
    return spawn + [go, go, go] + rest, end;
  }

  /** All schedules give the specified list if and only if no element panics. */
  lemma SchedulesAgreeIff(elems: seq<Elem>)
    ensures (forall acts, t :: Leads(elems, Init(elems), acts, t) && t.main.Returned? ==>
        t.main.reply == Expected(elems))
       <==> NoPanic(elems)
  {
    if NoPanic(elems) {
      forall acts, t | Leads(elems, Init(elems), acts, t) && t.main.Returned? ensures t.main.reply == Expected(elems) {
        EveryScheduleAgrees(elems, acts, t);
      }
    } else {
      var b :| 0 <= b < |elems| && elems[b].Blows?;
      var acts, t := PanicCanLoseTheNull(elems, b);
      assert Leads(elems, Init(elems), acts, t);
    }
  }
}
