/**
 Sessions stored newest first.  While no session older than a selected one has been stored
 since the select, the selected rows are the tail of the table and every moment is settled;
 while no id about to be published as deleted is stored again, every publication is in time.
 */
module FeedNewestFirst {
  import opened Lists
  import opened Options
  import opened SessionDb
  import opened Feed
  import opened FeedCoverage

  // Exactly the rows from m on are selected.
  ghost predicate TailAt(db: Table, selected: set<string>, m: int) {
    0 <= m <= |db| && forall i :: 0 <= i < |db| ==> (db[i].id in selected <==> i >= m)
  }

  ghost predicate SelectedIsTail(s: System) {
    exists m :: TailAt(s.db, s.selected, m)
  }

  // Some change made has yet to be published as the deletion of this id.
  ghost predicate Condemned(outbox: seq<Notification>, id: string) {
    exists n :: n in outbox && n.DeleteSession? && id in n.ids
  }

  ghost predicate NoneCondemned(s: System) {
    forall i :: 0 <= i < |s.db| ==> !Condemned(s.outbox, s.db[i].id)
  }

  // ---------- The two guards ----------

  lemma SettledIfTail(q: Query, s: System)
    requires Distinct(s.db) && SelectedIsTail(s)
    ensures Settled(q, s)
  {
    var m :| TailAt(s.db, s.selected, m);
    ViewWithoutTail(q, s.db, s.selected, m);
    var w := View(Delete(s.db, s.selected), q);
    forall i | 0 <= i < |w| && i < s.ui.offset + LIMIT ensures OnPageOrAnnounced(q, s, w[i].id) {
      InFront(View(s.db, q), Min(s.ui.offset + LIMIT, |View(s.db, q)|), i);
    }
  }

  lemma ViewWithoutTail(q: Query, db: Table, selected: set<string>, m: nat)
    requires TailAt(db, selected, m)
    ensures var w, v := View(Delete(db, selected), q), View(db, q);
      |w| <= |v| && forall i :: 0 <= i < |w| ==> w[i] == v[i]
  {
    FilterCut(db, NotIn(selected), m);
    assert db == db[..m] + db[m..];
    FilterConcat(db[..m], db[m..], Matching(q));
  }

  lemma InFront(v: Table, n: nat, i: nat)
    requires i < n <= |v|
    ensures HasId(v[..n], v[i].id)
  {
    assert v[..n][i] == v[i];
  }

  lemma SettledWithoutReap(q: Query, s: System)
    requires Distinct(s.db) && s.selected == {}
    ensures Settled(q, s)
  {
    assert TailAt(s.db, {}, |s.db|);
    SettledIfTail(q, s);
  }

  lemma TimelyIfNoneCondemned(q: Query, s: System, k: nat)
    requires k < |s.outbox| && NoneCondemned(s)
    ensures Timely(q, s, k)
  {
    var v := View(s.db, q);
    if s.outbox[k].DeleteSession? {
      forall i | 0 <= i < |v| ensures v[i].id !in s.outbox[k].ids {
        assert v[i] in v && v[i] in s.db;
        var j :| 0 <= j < |s.db| && s.db[j] == v[i];
        assert !Condemned(s.outbox, s.db[j].id);
      }
    }
  }

  // ---------- Runs that store no session behind a selected one ----------

  // No selected row is in front of this place.
  ghost predicate AheadOfSelected(s: System, p: nat) {
    exists m :: TailAt(s.db, s.selected, m) && p <= m
  }

  // A row goes in ahead of the selected ones, and not while its id is about to be published as deleted.
  ghost predicate NewestFirstStep(s: System, step: Step) {
    match step
    case Start(row, p) => AheadOfSelected(s, p) && !Condemned(s.outbox, row.id)
    case Finish(id, r, p) => HasId(s.db, id) || (AheadOfSelected(s, p) && !Condemned(s.outbox, id))
    case _ => true
  }

  ghost predicate Tidy(s: System) {
    SelectedIsTail(s) && NoneCondemned(s)
  }

  lemma InsertedAt(db: Table, p: nat, row: Session, i: nat)
    requires p <= |db| && i <= |db|
    ensures Insert(db, p, row)[i] == if i < p then db[i] else if i == p then row else db[i - 1]
  {
  }

  lemma InsertTail(s: System, row: Session, p: nat)
    requires AheadOfSelected(s, p) && row.id !in s.selected
    ensures p <= |s.db| && exists m :: TailAt(Insert(s.db, p, row), s.selected, m)
  {
    var m :| TailAt(s.db, s.selected, m) && p <= m;
    var db' := Insert(s.db, p, row);
    forall i | 0 <= i < |db'| ensures db'[i].id in s.selected <==> i >= m + 1 {
      InsertedAt(s.db, p, row, i);
    }
    assert TailAt(db', s.selected, m + 1);
  }

  lemma ReplaceTail(db: Table, selected: set<string>, row: Session)
    requires exists m :: TailAt(db, selected, m)
    ensures exists m :: TailAt(Replace(db, row), selected, m)
  {
    var m :| TailAt(db, selected, m);
    assert TailAt(Replace(db, row), selected, m);
  }

  lemma AppendedNews(outbox: seq<Notification>, stub: Stub, id: string)
    ensures Condemned(outbox + [NewSession(stub)], id) <==> Condemned(outbox, id)
  {
    var more := outbox + [NewSession(stub)];
    if Condemned(outbox, id) {
      var n :| n in outbox && n.DeleteSession? && id in n.ids;
      assert n in more;
    }
  }

  lemma InsertTidy(s: System, row: Session, p: nat, s': System)
    requires Tidy(s) && AheadOfSelected(s, p) && row.id !in s.selected && !Condemned(s.outbox, row.id)
    requires p <= |s.db| && s'.db == Insert(s.db, p, row) && s'.selected == s.selected
    requires s'.outbox == s.outbox + [NewSession(StubOf(row))]
    ensures Tidy(s')
  {
    InsertTail(s, row, p);
    forall i | 0 <= i < |s'.db| ensures !Condemned(s'.outbox, s'.db[i].id) {
      AppendedNews(s.outbox, StubOf(row), s'.db[i].id);
      InsertedAt(s.db, p, row, i);
      if i != p { assert !Condemned(s.outbox, s.db[if i < p then i else i - 1].id); }
    }
  }

  lemma ReplaceTidy(s: System, row: Session, s': System)
    requires Tidy(s) && s'.db == Replace(s.db, row) && s'.selected == s.selected
    requires s'.outbox == s.outbox + [NewSession(StubOf(row))]
    ensures Tidy(s')
  {
    ReplaceTail(s.db, s.selected, row);
    forall i | 0 <= i < |s'.db| ensures !Condemned(s'.outbox, s'.db[i].id) {
      AppendedNews(s.outbox, StubOf(row), s'.db[i].id);
      assert !Condemned(s.outbox, s.db[i].id);
    }
  }

  lemma SelectIsTail(s: System, k: nat)
    requires Distinct(s.db)
    ensures SelectedIsTail(s.(selected := IdsOf(Oldest(s.db, k))))
  {
    var m, sel := |s.db| - Min(k, |s.db|), IdsOf(Oldest(s.db, k));
    forall i | 0 <= i < |s.db| ensures s.db[i].id in sel <==> i >= m {
      TailIds(s.db, m, s.db[i]);
      if i < m {
        assert s.db[..m][i] == s.db[i];
      } else {
        assert s.db[m..][i - m] == s.db[i];
      }
    }
    assert TailAt(s.db, sel, m);
  }

  lemma DeleteTidy(q: Query, s: System)
    requires Tidy(s)
    ensures Tidy(Next(q, s, ReapDelete))
  {
    var s' := Next(q, s, ReapDelete);
    if s.selected != {} {
      assert TailAt(s'.db, s'.selected, |s'.db|);
      forall i | 0 <= i < |s'.db| ensures !Condemned(s'.outbox, s'.db[i].id) {
        assert s'.db[i] in s'.db && s'.db[i] in s.db;
        var j :| 0 <= j < |s.db| && s.db[j] == s'.db[i];
        assert !Condemned(s.outbox, s.db[j].id);
      }
    }
  }

  lemma PublishTidy(q: Query, s: System, k: nat)
    requires Tidy(s) && k < |s.outbox|
    ensures Tidy(Next(q, s, Publish(k)))
  {
    var s' := Next(q, s, Publish(k));
    var m :| TailAt(s.db, s.selected, m);
    assert TailAt(s'.db, s'.selected, m);
    forall i | 0 <= i < |s'.db| ensures !Condemned(s'.outbox, s'.db[i].id) {
      assert !Condemned(s.outbox, s.db[i].id);
      assert forall n :: n in s'.outbox ==> n in s.outbox;
    }
  }

  lemma StepKeepsTidy(q: Query, s: System, step: Step)
    requires Tidy(s) && Inv(q, s) && CanStep(s, step) && NewestFirstStep(s, step)
    ensures Tidy(Next(q, s, step)) && OnCourse(q, s, step)
  {
    var s' := Next(q, s, step);
    match step
    case Start(row, p) => InsertTidy(s, row, p, s');
    case Finish(id, r, p) =>
      var row := Finished(s.open[id], r);
      if HasId(s.db, id) { ReplaceTidy(s, row, s'); } else { InsertTidy(s, row, p, s'); }
    case ReapSelect(k) => SelectIsTail(s, k);
    case ReapDelete => DeleteTidy(q, s);
    case Publish(k) =>
      PublishTidy(q, s, k);
      TimelyIfNoneCondemned(q, s, k);
    case FetchPage =>
      SettledIfTail(q, s);
      SameTidy(s, s');
    case _ => SameTidy(s, s');
  }

  lemma SameTidy(s: System, s': System)
    requires Tidy(s) && s'.db == s.db && s'.selected == s.selected && s'.outbox == s.outbox
    ensures Tidy(s')
  {
    var m :| TailAt(s.db, s.selected, m);
    assert TailAt(s'.db, s'.selected, m);
  }

  ghost predicate NewestFirstAt(q: Query, s0: System, steps: seq<Step>, k: nat) {
    k < |steps| && After(q, s0, steps[..k]).At? && NewestFirstStep(After(q, s0, steps[..k]).sys, steps[k])
  }

  ghost predicate NewestFirstRun(q: Query, s0: System, steps: seq<Step>) {
    && Opening(s0) && Tidy(s0) && After(q, s0, steps).At?
    && forall k: nat :: k < |steps| ==> NewestFirstAt(q, s0, steps, k)
  }

  // Such a run meets the condition on every step, whenever pages are fetched and
  // notifications published.
  lemma {:induction false} NewestFirstIsOnCourse(q: Query, s0: System, steps: seq<Step>)
    requires NewestFirstRun(q, s0, steps)
    ensures Run(q, s0, steps) && Tidy(After(q, s0, steps).sys)
  {
    if steps != [] {
      var n := |steps| - 1;
      var front := steps[..n];
      forall k: nat | k < n ensures NewestFirstAt(q, s0, front, k) {
        assert NewestFirstAt(q, s0, steps, k) && front[..k] == steps[..k];
      }
      NewestFirstIsOnCourse(q, s0, front);
      RunKeepsInv(q, s0, front);
      assert NewestFirstAt(q, s0, steps, n);
      StepKeepsTidy(q, After(q, s0, front).sys, steps[n]);
      RunOneMore(q, s0, steps);
    }
  }

  // Such sessions, newest first as far as the reap can tell: no gap and no duplicate, with no condition on when pages
  // are fetched or notifications published.
  lemma NoGapNewestFirst(q: Query, s0: System, steps: seq<Step>, i: nat)
    requires NewestFirstRun(q, s0, steps)
    ensures var s := After(q, s0, steps).sys;
      && DistinctStubs(s.ui.list)
      && (i < |View(s.db, q)| && i < s.merged ==>
            var id := View(s.db, q)[i].id;
            && (HasStub(ReceiveAll(q.configId, s.ui.list, s.inbox), id) || Coming(q, s, id))
            && (s.inbox == [] && s.outbox == [] ==> HasStub(s.ui.list, id)))
  {
    NewestFirstIsOnCourse(q, s0, steps);
    RunKeepsInv(q, s0, steps);
    NoGapOnceReceived(q, s0, steps, i);
  }
}
