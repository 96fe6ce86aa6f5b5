/**
 Handing proxies to a running daemon: the client drops those the daemon reports,
 the daemon merges the rest into its list, one by one.
 */
module DaemonMerge {
  import opened Lists
  import opened Options
  import opened Registry

  datatype Result = Ignored(proxy: string) | Conflict(proxy: string) | Failed(proxy: string, reason: string) | Success(proxy: string)

  // What starting an entry comes to, given the list so far: None, or the error.
  type Starter = (seq<Entry>, Entry) -> Option<string>

  // The first stored entry on this address.
  function Holder(stored: seq<Entry>, listen: string): (e: Option<Entry>)
    ensures e.Some? ==> e.value in stored && e.value.listen == listen
    ensures e.None? ==> forall x :: x in stored ==> x.listen != listen
  {
    if stored == [] then None else if stored[0].listen == listen then Some(stored[0]) else Holder(stored[1..], listen)
  }

  function Mark(p: Entry, error: Option<string>): Entry {
    if error.Some? then p.(active := false, error := error.value) else p.(active := true)
  }

  function ResultOf(stored: seq<Entry>, p: Entry, start: Starter): Result {
    var holder := Holder(stored, p.listen);
    if holder.Some? then if holder.value.target == p.target then Ignored(p.listen) else Conflict(p.listen)
    else
      var error := start(stored, p);
      if error.Some? then Failed(p.listen, error.value) else Success(p.listen)
  }

  function Added(stored: seq<Entry>, p: Entry, start: Starter): seq<Entry> {
    if Holder(stored, p.listen).Some? then stored else stored + [Mark(p, start(stored, p))]
  }

  function Merged(stored: seq<Entry>, ps: seq<Entry>, start: Starter): seq<Entry>
    decreases |ps|
  {
    if ps == [] then stored else Merged(Added(stored, ps[0], start), ps[1..], start)
  }

  function Results(stored: seq<Entry>, ps: seq<Entry>, start: Starter): seq<Result>
    decreases |ps|
  {
    if ps == [] then [] else [ResultOf(stored, ps[0], start)] + Results(Added(stored, ps[0], start), ps[1..], start)
  }

  // ---------- What the merge is: a left-biased union by listen address ----------

  predicate Listens(s: seq<Entry>, listen: string) {
    exists x :: x in s && x.listen == listen
  }

  // Entry k is the first of its address, and the address is not taken.
  predicate IsNew(stored: seq<Entry>, ps: seq<Entry>, k: nat)
    requires k < |ps|
  {
    !Listens(stored, ps[k].listen) && !Listens(ps[..k], ps[k].listen)
  }

  // The new entries, in order.
  function Firsts(stored: seq<Entry>, ps: seq<Entry>): seq<Entry> {
    if ps == [] then []
    else
      var n := |ps| - 1;
      Firsts(stored, ps[..n]) + if IsNew(stored, ps, n) then [ps[n]] else []
  }

  // The same addresses, targets and flags; only the outcome of the start may differ.
  predicate SameProxy(a: Entry, b: Entry) {
    a.listen == b.listen && a.target == b.target && a.truncateLogBody == b.truncateLogBody
  }

  predicate SameProxies(xs: seq<Entry>, ys: seq<Entry>) {
    |xs| == |ys| && forall i :: 0 <= i < |xs| ==> SameProxy(xs[i], ys[i])
  }

  lemma {:induction false} MergedSnoc(stored: seq<Entry>, ps: seq<Entry>, p: Entry, start: Starter)
    ensures Merged(stored, ps + [p], start) == Added(Merged(stored, ps, start), p, start)
    ensures Results(stored, ps + [p], start) == Results(stored, ps, start) + [ResultOf(Merged(stored, ps, start), p, start)]
    decreases |ps|
  {
    if ps == [] {
      assert [p][1..] == [];
    } else {
      assert (ps + [p])[1..] == ps[1..] + [p];
      MergedSnoc(Added(stored, ps[0], start), ps[1..], p, start);
    }
  }

  lemma {:induction false} AddressesAfter(stored: seq<Entry>, ps: seq<Entry>, start: Starter, listen: string)
    ensures Listens(Merged(stored, ps, start), listen) <==> Listens(stored, listen) || Listens(ps, listen)
    decreases |ps|
  {
    if ps != [] {
      var stored' := Added(stored, ps[0], start);
      AddressesAfter(stored', ps[1..], start, listen);
      AddedAddresses(stored, ps[0], start, listen);
      assert ps == [ps[0]] + ps[1..];
      assert Listens(ps, listen) <==> ps[0].listen == listen || Listens(ps[1..], listen);
    }
  }

  lemma AddedAddresses(stored: seq<Entry>, p: Entry, start: Starter, listen: string)
    ensures Listens(Added(stored, p, start), listen) <==> Listens(stored, listen) || p.listen == listen
  {
    if Holder(stored, p.listen).None? {
      var e := Mark(p, start(stored, p));
      assert e in stored + [e];
    }
  }

  lemma AppendAfter(front: seq<Entry>, e: Entry, n: nat)
    requires n <= |front|
    ensures (front + [e])[..n] == front[..n] && (front + [e])[n..] == front[n..] + [e]
  {
  }

  // Existing entries stay in front; after them come exactly the first entries of new addresses,
  // in order, whether or not they started.
  lemma {:induction false} LeftBiasedUnion(stored: seq<Entry>, ps: seq<Entry>, start: Starter)
    ensures stored <= Merged(stored, ps, start)
    ensures SameProxies(Merged(stored, ps, start)[|stored|..], Firsts(stored, ps))
  {
    if ps == [] {
      assert stored[|stored|..] == [];
    } else {
      var n := |ps| - 1;
      assert ps == ps[..n] + [ps[n]];
      LeftBiasedUnion(stored, ps[..n], start);
      MergedSnoc(stored, ps[..n], ps[n], start);
      AddressesAfter(stored, ps[..n], start, ps[n].listen);
      var front := Merged(stored, ps[..n], start);
      if IsNew(stored, ps, n) {
        AppendAfter(front, Mark(ps[n], start(front, ps[n])), |stored|);
      }
    }
  }

  ghost predicate DistinctAddresses(s: seq<Entry>) {
    forall i, j :: 0 <= i < j < |s| ==> s[i].listen != s[j].listen
  }

  lemma {:induction false} AddressesStayDistinct(stored: seq<Entry>, ps: seq<Entry>, start: Starter)
    requires DistinctAddresses(stored)
    ensures DistinctAddresses(Merged(stored, ps, start))
    decreases |ps|
  {
    if ps != [] {
      AddressesStayDistinct(Added(stored, ps[0], start), ps[1..], start);
    }
  }

  // ---------- One result per input ----------

  lemma {:induction false} HolderStays(stored: seq<Entry>, more: seq<Entry>, listen: string)
    requires Listens(stored, listen)
    ensures Holder(stored + more, listen) == Holder(stored, listen)
  {
    if stored[0].listen != listen {
      assert (stored + more)[1..] == stored[1..] + more;
      assert Listens(stored[1..], listen) by {
        var x :| x in stored && x.listen == listen;
        assert x in stored[1..];
      }
      HolderStays(stored[1..], more, listen);
    } else {
      assert (stored + more)[0] == stored[0];
    }
  }

  // Result k, read off the input and the final list: new entries were started, the others
  // meet the entry that holds their address.
  ghost predicate ResultOk(stored: seq<Entry>, ps: seq<Entry>, k: nat, result: Result, final: seq<Entry>)
    requires k < |ps|
  {
    var holder := Holder(final, ps[k].listen);
    && holder.Some?
    && result.proxy == ps[k].listen
    && (result.Success? || result.Failed? <==> IsNew(stored, ps, k))
    && (result.Success? ==> holder.value == ps[k].(active := true))
    && (result.Failed? ==> holder.value == ps[k].(active := false, error := result.reason))
    && (result.Ignored? ==> holder.value.target == ps[k].target)
    && (result.Conflict? ==> holder.value.target != ps[k].target)
  }

  lemma {:induction false} OneResultEach(stored: seq<Entry>, ps: seq<Entry>, start: Starter)
    ensures |Results(stored, ps, start)| == |ps|
    ensures forall k :: 0 <= k < |ps| ==> ResultOk(stored, ps, k, Results(stored, ps, start)[k], Merged(stored, ps, start))
  {
    if ps != [] {
      var n := |ps| - 1;
      var front := ps[..n];
      assert ps == front + [ps[n]];
      OneResultEach(stored, front, start);
      MergedSnoc(stored, front, ps[n], start);
      LastResult(stored, ps, start);
      var before, final := Merged(stored, front, start), Merged(stored, ps, start);
      LeftBiasedUnion(before, [ps[n]], start);
      assert Merged(before, [ps[n]], start) == final by { MergedSnoc(before, [], ps[n], start); }
      forall k | 0 <= k < n ensures ResultOk(stored, ps, k, Results(stored, ps, start)[k], final) {
        EarlierResult(stored, ps, k, n, Results(stored, front, start)[k], before, final);
      }
    }
  }

  lemma EarlierResult(stored: seq<Entry>, ps: seq<Entry>, k: nat, n: nat, result: Result, before: seq<Entry>, final: seq<Entry>)
    requires k < n <= |ps| && before <= final
    requires ResultOk(stored, ps[..n], k, result, before)
    ensures ResultOk(stored, ps, k, result, final)
  {
    assert ps[..n][..k] == ps[..k];
    assert final == before + final[|before|..];
    HolderStays(before, final[|before|..], ps[k].listen);
  }

  lemma LastResult(stored: seq<Entry>, ps: seq<Entry>, start: Starter)
    requires ps != []
    ensures var n := |ps| - 1;
      ResultOk(stored, ps, n, ResultOf(Merged(stored, ps[..n], start), ps[n], start), Added(Merged(stored, ps[..n], start), ps[n], start))
  {
    var n := |ps| - 1;
    var before := Merged(stored, ps[..n], start);
    AddressesAfter(stored, ps[..n], start, ps[n].listen);
    if Holder(before, ps[n].listen).None? {
      NewHolder(before, Mark(ps[n], start(before, ps[n])));
    }
  }

  lemma {:induction false} NewHolder(stored: seq<Entry>, e: Entry)
    requires Holder(stored, e.listen).None?
    ensures Holder(stored + [e], e.listen) == Some(e)
  {
    if stored != [] {
      assert (stored + [e])[1..] == stored[1..] + [e];
      NewHolder(stored[1..], e);
    }
  }

  // ---------- Merging again ----------

  lemma {:induction false} NothingToAdd(stored: seq<Entry>, ps: seq<Entry>, start: Starter)
    requires forall p :: p in ps ==> Listens(stored, p.listen)
    ensures Merged(stored, ps, start) == stored
    ensures forall r :: r in Results(stored, ps, start) ==> r.Ignored? || r.Conflict?
  {
    if ps != [] {
      NothingToAdd(stored, ps[1..], start);
    }
  }

  lemma MergeIsIdempotent(stored: seq<Entry>, ps: seq<Entry>, start: Starter)
    ensures var once := Merged(stored, ps, start);
      Merged(once, ps, start) == once && forall r :: r in Results(once, ps, start) ==> r.Ignored? || r.Conflict?
  {
    forall p | p in ps ensures Listens(Merged(stored, ps, start), p.listen) {
      AddressesAfter(stored, ps, start, p.listen);
    }
    NothingToAdd(Merged(stored, ps, start), ps, start);
  }

  // ---------- The client's filter ----------

  datatype Status = Status(listen: string, target: string)

  predicate Reported(status: seq<Status>, p: Entry) {
    exists d :: d in status && d.listen == p.listen && d.target == p.target
  }

  function Unreported(status: seq<Status>): Entry -> bool {
    (p: Entry) => !Reported(status, p)
  }

  // The status list names no address that the daemon's list lacks.
  ghost predicate Agrees(status: seq<Status>, stored: seq<Entry>) {
    forall d :: d in status ==> Listens(stored, d.listen)
  }

  lemma {:induction false} FilteredMerge(stored: seq<Entry>, ps: seq<Entry>, status: seq<Status>, start: Starter)
    requires Agrees(status, stored)
    ensures Merged(stored, Filter(ps, Unreported(status)), start) == Merged(stored, ps, start)
    decreases |ps|
  {
    if ps != [] {
      var p, rest := ps[0], Filter(ps[1..], Unreported(status));
      if Reported(status, p) {
        var d :| d in status && d.listen == p.listen && d.target == p.target;
        assert Listens(stored, d.listen);
        FilteredMerge(stored, ps[1..], status, start);
        assert !Unreported(status)(p) && Filter(ps, Unreported(status)) == rest;
        assert Added(stored, p, start) == stored;
      } else {
        var stored' := Added(stored, p, start);
        forall d | d in status ensures Listens(stored', d.listen) {
          AddedAddresses(stored, p, start, d.listen);
        }
        FilteredMerge(stored', ps[1..], status, start);
        assert Filter(ps, Unreported(status)) == [p] + rest;
        assert ([p] + rest)[0] == p && ([p] + rest)[1..] == rest;
      }
    }
  }

  // ---------- Replies ----------

  // The status list names addresses of the daemon's list with the targets they have there.
  ghost predicate Tells(status: seq<Status>, stored: seq<Entry>) {
    forall d :: d in status ==> Holder(stored, d.listen).Some? && Holder(stored, d.listen).value.target == d.target
  }

  // The replies to the entries that are not reported.
  function RepliesKept(ps: seq<Entry>, replies: seq<Result>, status: seq<Status>): seq<Result>
    requires |replies| == |ps|
  {
    if ps == [] then []
    else (if Reported(status, ps[0]) then [] else [replies[0]]) + RepliesKept(ps[1..], replies[1..], status)
  }

  lemma {:induction false} ReplyCount(stored: seq<Entry>, ps: seq<Entry>, start: Starter)
    ensures |Results(stored, ps, start)| == |ps|
    decreases |ps|
  {
    if ps != [] {
      ReplyCount(Added(stored, ps[0], start), ps[1..], start);
    }
  }

  lemma AddedTells(status: seq<Status>, stored: seq<Entry>, p: Entry, start: Starter)
    requires Tells(status, stored)
    ensures Tells(status, Added(stored, p, start))
  {
    if Holder(stored, p.listen).None? {
      forall d | d in status
        ensures Holder(Added(stored, p, start), d.listen).Some? && Holder(Added(stored, p, start), d.listen).value.target == d.target
      {
        assert Listens(stored, d.listen);
        HolderStays(stored, [Mark(p, start(stored, p))], d.listen);
      }
    }
  }

  // Filtering first takes away only replies of `ignored`; every other reply, every conflict above
  // all, is the same as without.
  lemma {:induction false} FilteredReplies(stored: seq<Entry>, ps: seq<Entry>, status: seq<Status>, start: Starter)
    requires Tells(status, stored)
    ensures |Results(stored, ps, start)| == |ps|
    ensures Results(stored, Filter(ps, Unreported(status)), start) == RepliesKept(ps, Results(stored, ps, start), status)
    ensures forall k :: 0 <= k < |ps| && Reported(status, ps[k]) ==> Results(stored, ps, start)[k] == Ignored(ps[k].listen)
    decreases |ps|
  {
    if ps != [] {
      var p, stored' := ps[0], Added(stored, ps[0], start);
      AddedTells(status, stored, p, start);
      FilteredReplies(stored', ps[1..], status, start);
      ReplyCount(stored, ps, start);
      FirstReply(stored, ps, start);
      if Reported(status, p) { ReportedIsIgnored(stored, p, status, start); }
      FirstHanded(stored, ps, status, start);
      forall k | 0 <= k < |ps| && Reported(status, ps[k]) ensures Results(stored, ps, start)[k] == Ignored(ps[k].listen) {
        if k > 0 { assert ps[k] == ps[1..][k - 1]; }
      }
    }
  }

  lemma FirstReply(stored: seq<Entry>, ps: seq<Entry>, start: Starter)
    requires ps != []
    ensures var rs := Results(stored, ps, start);
      rs != [] && rs[0] == ResultOf(stored, ps[0], start) && rs[1..] == Results(Added(stored, ps[0], start), ps[1..], start)
  {
  }

  lemma ReportedIsIgnored(stored: seq<Entry>, p: Entry, status: seq<Status>, start: Starter)
    requires Tells(status, stored) && Reported(status, p)
    ensures ResultOf(stored, p, start) == Ignored(p.listen) && Added(stored, p, start) == stored
  {
    var d :| d in status && d.listen == p.listen && d.target == p.target;
    assert Holder(stored, d.listen).Some?;
  }

  lemma FirstHanded(stored: seq<Entry>, ps: seq<Entry>, status: seq<Status>, start: Starter)
    requires ps != [] && (Reported(status, ps[0]) ==> Added(stored, ps[0], start) == stored)
    ensures Results(stored, Filter(ps, Unreported(status)), start)
         == (if Reported(status, ps[0]) then [] else [ResultOf(stored, ps[0], start)])
            + Results(Added(stored, ps[0], start), Filter(ps[1..], Unreported(status)), start)
  {
    var p, rest := ps[0], Filter(ps[1..], Unreported(status));
    if Reported(status, p) {
      assert Filter(ps, Unreported(status)) == rest;
    } else {
      assert Filter(ps, Unreported(status)) == [p] + rest && ([p] + rest)[1..] == rest;
    }
  }

  lemma ConflictIsHandedOver(stored: seq<Entry>, ps: seq<Entry>, status: seq<Status>, start: Starter, k: nat)
    requires Tells(status, stored) && k < |ps| && |Results(stored, ps, start)| == |ps|
    requires Results(stored, ps, start)[k].Conflict?
    ensures ps[k] in Handed(ps, Some(status))
  {
    FilteredReplies(stored, ps, status, start);
    assert ps[k] in ps;
  }

  // What becomes of a new entry is the outcome of its start on the list as merged so far.
  lemma {:induction false} StartOutcome(stored: seq<Entry>, ps: seq<Entry>, start: Starter, k: nat)
    requires k < |ps| && IsNew(stored, ps, k)
    ensures |Results(stored, ps, start)| == |ps|
    ensures var error := start(Merged(stored, ps[..k], start), ps[k]);
      Results(stored, ps, start)[k] == if error.None? then Success(ps[k].listen) else Failed(ps[k].listen, error.value)
    decreases |ps|
  {
    var front, n := ps[..|ps| - 1], |ps| - 1;
    assert ps == front + [ps[n]];
    MergedSnoc(stored, front, ps[n], start);
    ReplyCount(stored, front, start);
    if k == n {
      AddressesAfter(stored, front, start, ps[n].listen);
    } else {
      assert front[..k] == ps[..k];
      StartOutcome(stored, front, start, k);
    }
  }

  // What the client hands over, given the daemon's answer.
  function Handed(ps: seq<Entry>, answer: Option<seq<Status>>): seq<Entry> {
    if answer.None? then [] else Filter(ps, Unreported(answer.value))
  }

  ghost predicate FilterIsSafe(stored: seq<Entry>, answer: Option<seq<Status>>, start: Starter) {
    forall ps :: Merged(stored, Handed(ps, answer), start) == Merged(stored, ps, start)
  }

  function LongName(stored: seq<Entry>): string {
    if stored == [] then "x" else stored[0].listen + LongName(stored[1..])
  }

  lemma {:induction false} LongNameIsFree(stored: seq<Entry>)
    ensures |LongName(stored)| > 0 && forall x :: x in stored ==> |x.listen| < |LongName(stored)|
  {
    if stored != [] {
      LongNameIsFree(stored[1..]);
    }
  }

  // Some entry is lost when nothing is handed over, or when its address is reported and not stored.
  lemma SkippedEntry(stored: seq<Entry>, answer: Option<seq<Status>>, start: Starter, p: Entry)
    requires !Listens(stored, p.listen) && Handed([p], answer) == []
    ensures !FilterIsSafe(stored, answer, start)
  {
    AddressesAfter(stored, [p], start, p.listen);
    assert p in [p];
    assert Merged(stored, [], start) == stored;
    assert Merged(stored, [p], start) != stored;
    assert Merged(stored, Handed([p], answer), start) != Merged(stored, [p], start);
  }

  // Filtering first changes nothing, whatever is handed over, exactly when the answer has a list
  // of proxies and that agrees with the daemon's own.
  lemma FilterIsSafeIff(stored: seq<Entry>, answer: Option<seq<Status>>, start: Starter)
    ensures FilterIsSafe(stored, answer, start) <==> answer.Some? && Agrees(answer.value, stored)
  {
    if answer.None? {
      LongNameIsFree(stored);
      SkippedEntry(stored, answer, start, Entry(LongName(stored), "", false, false, ""));
    } else if Agrees(answer.value, stored) {
      forall ps ensures Merged(stored, Handed(ps, answer), start) == Merged(stored, ps, start) {
        FilteredMerge(stored, ps, answer.value, start);
      }
    } else {
      var d :| d in answer.value && !Listens(stored, d.listen);
      var p := Entry(d.listen, d.target, false, false, "");
      assert Reported(answer.value, p);
      assert Filter([p], Unreported(answer.value)) == [];
      SkippedEntry(stored, answer, start, p);
    }
  }

  // ---------- The code ----------

  // The daemon's half.
  class SysConfig {
    var proxies: seq<Entry>

    method MergeProxies(newProxies: seq<Entry>, start: Starter) returns (results: seq<Result>)
      modifies this
      ensures proxies == Merged(old(proxies), newProxies, start)
      ensures results == Results(old(proxies), newProxies, start)
    {
      results := [];
      for i := 0 to |newProxies|
        invariant Merged(proxies, newProxies[i..], start) == Merged(old(proxies), newProxies, start)
        invariant results + Results(proxies, newProxies[i..], start) == Results(old(proxies), newProxies, start)
      {
        var p := newProxies[i];
        assert newProxies[i..][1..] == newProxies[i + 1..];
        ghost var before, rest := proxies, Results(Added(proxies, p, start), newProxies[i + 1..], start);
        assert results + ([ResultOf(proxies, p, start)] + rest) == results + [ResultOf(proxies, p, start)] + rest;
        var r := MergeOne(p, start);
        results := results + [r];
      }
    }

    method MergeOne(p: Entry, start: Starter) returns (r: Result)
      modifies this
      ensures proxies == Added(old(proxies), p, start)
      ensures r == ResultOf(old(proxies), p, start)
    {
      for j := 0 to |proxies|
        invariant proxies == old(proxies)
        invariant Holder(proxies[j..], p.listen) == Holder(proxies, p.listen)
      {
        assert proxies[j..][1..] == proxies[j + 1..];
        if proxies[j].listen == p.listen {
          return if proxies[j].target == p.target then Ignored(p.listen) else Conflict(p.listen);
        }
      }
      var error := start(proxies, p);
      proxies := proxies + [Mark(p, error)];
      r := if error.Some? then Failed(p.listen, error.value) else Success(p.listen);
    }
  }

  lemma OneMore(ps: seq<Entry>, i: nat, status: seq<Status>)
    requires i < |ps|
    ensures Filter(ps[..i + 1], Unreported(status))
         == Filter(ps[..i], Unreported(status)) + if Reported(status, ps[i]) then [] else [ps[i]]
  {
    assert ps[..i + 1] == ps[..i] + [ps[i]];
    FilterConcat(ps[..i], [ps[i]], Unreported(status));
  }

  ghost predicate NotNamed(status: seq<Status>, p: Entry) {
    forall d :: d in status ==> d.listen != p.listen || d.target != p.target
  }

  lemma HandedIsKept(ps: seq<Entry>, status: seq<Status>)
    ensures Kept(ps, Filter(ps, Unreported(status)), (p: Entry) => NotNamed(status, p))
  {
    forall p | p in ps ensures Unreported(status)(p) == NotNamed(status, p) {}
    FilterKeeps(ps, Unreported(status), (p: Entry) => NotNamed(status, p));
  }

  // The client's half.  An answer without a list of proxies leaves nothing to hand over.
  method GetNewProxies(ps: seq<Entry>, answer: Option<seq<Status>>) returns (newProxies: seq<Entry>)
    ensures newProxies == Handed(ps, answer)
    ensures answer.None? ==> newProxies == []
    ensures answer.Some? ==>
      Kept(ps, newProxies, (p: Entry) => NotNamed(answer.value, p))
  {
    newProxies := [];
    if answer.None? { return; }
    var status := answer.value;
    HandedIsKept(ps, status);
    for i := 0 to |ps|
      invariant newProxies == Filter(ps[..i], Unreported(status))
    {
      var isNew := true;
      for j := 0 to |status|
        invariant isNew && forall d :: d in status[..j] ==> !(d.listen == ps[i].listen && d.target == ps[i].target)
      {
        if status[j].listen == ps[i].listen && status[j].target == ps[i].target {
          isNew := false;
          break;
        }
      }
      assert status[..|status|] == status;
      OneMore(ps, i, status);
      if isNew {
        newProxies := newProxies + [ps[i]];
      }
    }
    assert ps[..|ps|] == ps;
  }
}
