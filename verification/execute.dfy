/** Running the write statements of one record in order on one connection,
    without a transaction: the first failing statement ends the record and
    every row written before it stays. */
module Execution {
  import opened Wrappers
  import opened Store

  /** The store after a run of statements, how many of them succeeded, and the
      error of the statement that stopped the run, if one did. */
  datatype Executed = Executed(store: Store, done: nat, fault: Option<Fault>)

  /** The rows a statement sequence appends to `videos`, in order. */
  function VideosOf(ss: seq<Stmt>): seq<VideoRow>
  {
    if ss == [] then [] else VideoOf(ss[0]) + VideosOf(ss[1..])
  }

  lemma {:induction false} VideosOfAppend(a: seq<Stmt>, b: seq<Stmt>)
    ensures VideosOf(a + b) == VideosOf(a) + VideosOf(b)
  {
    if a == [] {
      assert a + b == b;
    } else {
      assert (a + b)[1..] == a[1..] + b;
      VideosOfAppend(a[1..], b);
    }
  }

  /** Issues the statements one after another and stops at the first one the
      database refuses. The statements before it all succeeded and their rows
      stay; exactly the videos of those statements were appended. */
  function Execute(ss: seq<Stmt>, s: Store, rejected: Stmt -> bool): (r: Executed)
    ensures r.done <= |ss|
    ensures r.fault.None? <==> r.done == |ss|
    ensures r.fault.Some? ==> Apply(ss[r.done], r.store, rejected) == Err(r.fault.value)
    ensures Grows(s, r.store)
    ensures r.store.videos == s.videos + VideosOf(ss[..r.done])
    decreases |ss|
  {
    if ss == [] then Executed(s, 0, None)
    else
      match Apply(ss[0], s, rejected)
      case Err(e) => Executed(s, 0, Some(e))
      case Ok(s1) =>
        var rest := Execute(ss[1..], s1, rejected);
        assert ss[..rest.done + 1] == [ss[0]] + ss[1..][..rest.done];
        VideosOfAppend([ss[0]], ss[1..][..rest.done]);
        GrowsTransitive(s, s1, rest.store);
        Executed(rest.store, rest.done + 1, rest.fault)
  }

  /** No transaction: the store a failed run leaves is exactly the store of
      running only the statements before the failing one. */
  lemma {:induction false} ExecuteKeepsPrefix(ss: seq<Stmt>, s: Store, rejected: Stmt -> bool)
    ensures var r := Execute(ss, s, rejected);
      var p := Execute(ss[..r.done], s, rejected);
      p.fault.None? && p.store == r.store
    decreases |ss|
  {
    var r := Execute(ss, s, rejected);
    if ss != [] {
      match Apply(ss[0], s, rejected)
      case Err(e) =>
        assert ss[..r.done] == [];
      case Ok(s1) =>
        var rest := Execute(ss[1..], s1, rejected);
        ExecuteKeepsPrefix(ss[1..], s1, rejected);
        var pre := ss[..r.done];
        assert pre[0] == ss[0];
        assert pre[1..] == ss[1..][..rest.done];
    }
  }

  /** Every statement that succeeded still has its effect at the end. */
  lemma {:induction false} ExecuteHoldsAll(ss: seq<Stmt>, s: Store, rejected: Stmt -> bool)
    ensures var r := Execute(ss, s, rejected);
      forall i :: 0 <= i < r.done ==> Holds(ss[i], r.store)
    decreases |ss|
  {
    var r := Execute(ss, s, rejected);
    if ss != [] {
      match Apply(ss[0], s, rejected)
      case Err(e) =>
      case Ok(s1) =>
        var rest := Execute(ss[1..], s1, rejected);
        ExecuteHoldsAll(ss[1..], s1, rejected);
        HoldsPersists(ss[0], s1, rest.store);
        forall i | 0 < i < r.done
          ensures Holds(ss[i], r.store)
        {
          assert ss[i] == ss[1..][i - 1];
        }
    }
  }

  /** The rows a statement sequence guarantees once it has fully succeeded. */
  function ProvidesAll(ss: seq<Stmt>): set<Key>
  {
    if ss == [] then {} else Provides(ss[0]) + ProvidesAll(ss[1..])
  }

  lemma {:induction false} ProvidesAllAppend(a: seq<Stmt>, b: seq<Stmt>)
    ensures ProvidesAll(a + b) == ProvidesAll(a) + ProvidesAll(b)
  {
    if a == [] {
      assert a + b == b;
    } else {
      assert (a + b)[1..] == a[1..] + b;
      ProvidesAllAppend(a[1..], b);
    }
  }

  /** Write order: every statement's referenced rows are among `have` or are
      provided by an earlier statement of the sequence. */
  ghost predicate ReadyFrom(ss: seq<Stmt>, have: set<Key>)
    decreases |ss|
  {
    ss == [] || (Needs(ss[0]) <= have && ReadyFrom(ss[1..], have + Provides(ss[0])))
  }

  lemma {:induction false} ReadyAppend(a: seq<Stmt>, b: seq<Stmt>, have: set<Key>)
    requires ReadyFrom(a, have)
    requires ReadyFrom(b, have + ProvidesAll(a))
    ensures ReadyFrom(a + b, have)
    decreases |a|
  {
    if a == [] {
      assert a + b == b;
      assert have + ProvidesAll(a) == have;
    } else {
      assert (a + b)[0] == a[0];
      assert (a + b)[1..] == a[1..] + b;
      assert have + Provides(a[0]) + ProvidesAll(a[1..]) == have + ProvidesAll(a);
      ReadyAppend(a[1..], b, have + Provides(a[0]));
    }
  }

  /** Referential integrity survives a run whose statements are in write
      order: a join or video row is only written after the rows it refers to. */
  lemma {:induction false} ExecuteKeepsReferential(ss: seq<Stmt>, s: Store, rejected: Stmt -> bool, have: set<Key>)
    requires Referential(s)
    requires forall k :: k in have ==> Present(s, k)
    requires ReadyFrom(ss, have)
    ensures Referential(Execute(ss, s, rejected).store)
    decreases |ss|
  {
    if ss != [] {
      match Apply(ss[0], s, rejected)
      case Err(e) =>
      case Ok(s1) =>
        ApplyKeepsReferential(ss[0], s, rejected);
        ExecuteKeepsReferential(ss[1..], s1, rejected, have + Provides(ss[0]));
    }
  }

  /** A run whose only plain INSERT is its first statement completes exactly
      when that INSERT's key is free and the database refuses none of the
      statements. */
  lemma {:induction false} ExecuteCompletesIff(ss: seq<Stmt>, s: Store, rejected: Stmt -> bool)
    requires forall i :: 0 < i < |ss| ==> !PlainInsert(ss[i])
    ensures Execute(ss, s, rejected).fault.None?
        <==> (ss == [] || !Conflicts(ss[0], s)) && forall i :: 0 <= i < |ss| ==> !rejected(ss[i])
    decreases |ss|
  {
    if ss != [] {
      match Apply(ss[0], s, rejected)
      case Err(e) =>
      case Ok(s1) =>
        ExecuteCompletesIff(ss[1..], s1, rejected);
        var rest := ss[1..];
        assert forall i :: 0 < i < |ss| ==> ss[i] == rest[i - 1];
        if rest != [] {
          assert !Conflicts(rest[0], s1);
        }
    }
  }
}
