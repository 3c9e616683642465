/**
 * Listings after writes, told by the calls alone: a List that begins after a write has returned answers
 * from a table at least as recent as that write, and never shows a user whose Delete has returned.
 */
module ReadYourWrites {
  import opened Core
  import opened Paging
  import opened Table
  import opened Protocol
  import opened Replies
  import DataInvariant
  import ListFreshness

  /** Step i commits a table: its number is the length of the history before it. */
  predicate Commits(states: seq<State>, acts: seq<Action>, i: nat, tid: nat) {
    |states| == |acts| + 1 && i < |acts| && acts[i].Advance? && acts[i].tid == tid
    && |states[i + 1].hist| > |states[i].hist| > 0
  }

  lemma StepAt(states: seq<State>, acts: seq<Action>, n: nat, tid: nat)
    requires IsRun(states, acts) && n < |acts|
    ensures var s, s', a := states[n], states[n + 1], acts[n];
      && Enabled(s, a) && s' == Apply(s, a) && s.hist <= s'.hist && s.returned <= s'.returned
      && (tid in s.threads && !(a.Advance? && a.tid == tid) ==>
            tid in s'.threads && s'.threads[tid] == s.threads[tid]
            && (tid in s.calls ==> tid in s'.calls && s'.calls[tid] == s.calls[tid]))
      && (a.Advance? ==> MovesOnly(s, s', a.tid))
  {
    assert Follows(states, acts, n);
    hide Apply;
    ActionMovesOnly(states[n], acts[n], tid);
    if acts[n].Advance? {
      StepMovesOnly(states[n], acts[n].tid, acts[n].c);
      ApplyAdvance(states[n], acts[n]);
    }
    hide MovesOnly, Step;
  }

  lemma ApplyAdvance(s: State, a: Action)
    requires |s.hist| > 0 && a.Advance? && a.tid in s.threads
    ensures Apply(s, a) == Step(s, a.tid, a.c)
  {
  }

  /** From its commit on a call carries the commit's number, and leaves it recorded when it returns. */
  lemma {:induction false} CommitIsCarried(states: seq<State>, acts: seq<Action>, i: nat, n: nat, tid: nat)
    requires IsRun(states, acts) && Commits(states, acts, i, tid) && i < n <= |acts|
    ensures Carries(states[n], tid, |states[i].hist|)
    decreases n
  {
    StepAt(states, acts, n - 1, tid);
    hide IsRun, Apply;
    if i + 1 < n {
      CommitIsCarried(states, acts, i, n - 1, tid);
    }
  }

  /** What a call was begun with: every commit recorded by then. */
  lemma {:induction false} SeenAtTheStart(states: seq<State>, acts: seq<Action>, b: nat, n: nat, x: nat, req: Request)
    requires IsRun(states, acts) && BeganAt(acts, b, n, x, req)
    ensures x in states[n].threads && x in states[n].calls && states[n].calls[x] == CallInfo(req, states[b].returned)
    decreases n
  {
    StepAt(states, acts, n - 1, x);
    if b + 1 < n {
      hide IsRun, Apply;
      SeenAtTheStart(states, acts, b, n - 1, x, req);
    }
  }

  lemma {:induction false} RecordsStay(states: seq<State>, acts: seq<Action>, i: nat, n: nat, m: nat)
    requires IsRun(states, acts) && i <= n <= |acts| && m in states[i].returned
    ensures m in states[n].returned
    decreases n
  {
    if i < n {
      StepAt(states, acts, n - 1, 0);
      hide IsRun, Apply;
      RecordsStay(states, acts, i, n - 1, m);
    }
  }

  lemma {:induction false} TablesStay(states: seq<State>, acts: seq<Action>, i: nat, n: nat, m: nat)
    requires IsRun(states, acts) && i <= n <= |acts| && m < |states[i].hist|
    ensures m < |states[n].hist| && states[n].hist[m] == states[i].hist[m]
    decreases n
  {
    if i < n {
      StepAt(states, acts, n - 1, 0);
      hide IsRun, Apply;
      TablesStay(states, acts, i, n - 1, m);
    }
  }

  /**
   * Read your writes, through any cache: call `tid` committed at step i and had returned by state n, and
   * List call x began at step b, no earlier; then its answer is a page of a table from that commit on.
   */
  lemma ReturnedWritesAreListed(states: seq<State>, acts: seq<Action>, i: nat, n: nat, tid: nat, b: nat, x: nat,
                                page: int64, size: int64, users: seq<User>, total: int)
    returns (k: nat)
    requires IsRun(states, acts) && Init(states[0]) && states[|acts|].ver < TWO64
    requires Commits(states, acts, i, tid) && i < n <= b < |acts|
    requires tid in states[n].threads && states[n].threads[tid].Returned?
    requires BeganAt(acts, b, |acts|, x, List(page, size))
    requires x in states[|acts|].threads && states[|acts|].threads[x] == Returned(ListReply(users, total))
    ensures |states[i].hist| <= k < |states[|acts|].hist|
    ensures ListAllowed(states[|acts|].hist[k].rows, page, size, Page(users, total))
  {
    CommitIsCarried(states, acts, i, n, tid);
    RecordsStay(states, acts, n, b, |states[i].hist|);
    SeenAtTheStart(states, acts, b, |acts|, x, List(page, size));
    hide IsRun, ListAllowed;
    k := ListFreshness.ListsAreFresh(states, acts, x);
  }

  /** No List that begins after a Delete has returned shows the deleted user, on whatever page, from whatever tier. */
  lemma DeletedStaysDeleted(states: seq<State>, acts: seq<Action>, n: nat, tid: nat, id: Uuid, b: nat, x: nat,
                            page: int64, size: int64, users: seq<User>, total: int)
    requires IsRun(states, acts) && Init(states[0]) && states[|acts|].ver < TWO64
    requires n <= b < |acts| && tid in states[n].threads && tid in states[n].calls
    requires states[n].calls[tid].request == Delete(id) && states[n].threads[tid] == Returned(DeletedReply)
    requires BeganAt(acts, b, |acts|, x, List(page, size))
    requires x in states[|acts|].threads && states[|acts|].threads[x] == Returned(ListReply(users, total))
    ensures forall u :: u in users ==> u.id != id
  {
    var b0 := AnswersAreAccountedFor(states, acts, n, tid);
    var i: nat :| Moved(acts, b0, i, n, tid) && Buries(states[i], states[i + 1], id);
    var m := |states[i].hist|;
    assert Commits(states, acts, i, tid);
    CommitIsCarried(states, acts, i, n, tid);
    RecordsStay(states, acts, n, b, m);
    SeenAtTheStart(states, acts, b, |acts|, x, List(page, size));
    TablesStay(states, acts, i + 1, |acts|, m);
    hide IsRun, Init, Means, Apply;
    var _ := DataInvariant.DeletedIsNeverListed(states, acts, x, m, id);
  }
}
