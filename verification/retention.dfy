/** The pruner of old remote backups (`__clean_old_backups`): list the WebDAV
    root, keep the names the archive pattern admits, order them by the
    timestamp parsed from each name, and delete all but the newest
    `max_count` of them, one request per file. */
module Retention {
  import opened Py
  import opened DateTime
  import opened ArchiveName

  // ---------------------------------------------------------------------
  // Filtering

  /** `[f for f in remote_files if pattern.match(f)]`. */
  function Matching(names: seq<string>): (r: seq<string>)
    ensures |r| <= |names|
    ensures forall i :: 0 <= i < |r| ==> Matches(r[i])
  {
    if |names| == 0 then []
    else (if Matches(names[0]) then [names[0]] else []) + Matching(names[1..])
  }

  /** The filter keeps exactly the admitted names: nothing else gets in and
      no admitted name is lost. */
  lemma {:induction false} MatchingMembers(names: seq<string>, x: string)
    ensures x in Matching(names) <==> x in names && Matches(x)
  {
    if |names| > 0 {
      MatchingMembers(names[1..], x);
      assert names == [names[0]] + names[1..];
    }
  }

  /** The filter keeps the listing's order: filtering a concatenation is
      concatenating the filtered parts. */
  lemma {:induction false} MatchingConcat(a: seq<string>, b: seq<string>)
    ensures Matching(a + b) == Matching(a) + Matching(b)
  {
    if |a| == 0 {
      assert a + b == b;
    } else {
      assert (a + b)[1..] == a[1..] + b;
      MatchingConcat(a[1..], b);
    }
  }

  // ---------------------------------------------------------------------
  // Sort keys and ordering

  /** An admitted remote name together with its sort key. */
  datatype Entry = Entry(name: string, stamp: Timestamp)

  /** `sorted(..., key=lambda x: datetime.strptime(x, ...))` computes every
      key before it compares any: `None` when some key raises. */
  function Keyed(names: seq<string>): (r: Option<seq<Entry>>)
    requires forall i :: 0 <= i < |names| ==> Matches(names[i])
    ensures r.Some? ==> |r.value| == |names|
    ensures r.Some? ==> forall i :: 0 <= i < |names| ==>
      r.value[i].name == names[i] && ParseStamp(names[i]) == Some(r.value[i].stamp)
    ensures r.None? <==> exists i :: 0 <= i < |names| && ParseStamp(names[i]).None?
  {
    if |names| == 0 then Some([])
    else
      match ParseStamp(names[0])
      case None => None
      case Some(t) =>
        match Keyed(names[1..])
        case None =>
          assert forall i :: 0 < i < |names| ==> names[i] == names[1..][i - 1];
          None
        case Some(rest) =>
          assert forall i :: 0 < i < |names| ==> names[i] == names[1..][i - 1];
          Some([Entry(names[0], t)] + rest)
  }

  function Names(es: seq<Entry>): (r: seq<string>)
    ensures |r| == |es|
    ensures forall i :: 0 <= i < |es| ==> r[i] == es[i].name
  {
    if |es| == 0 then [] else [es[0].name] + Names(es[1..])
  }

  /** Oldest first, by timestamp. */
  predicate Ascending(es: seq<Entry>) {
    forall i, j :: 0 <= i < j < |es| ==> NotAfter(es[i].stamp, es[j].stamp)
  }

  predicate NoLaterThanAll(t: Timestamp, es: seq<Entry>) {
    forall j :: 0 <= j < |es| ==> NotAfter(t, es[j].stamp)
  }

  /** Inserts `e` after every entry whose timestamp is not later than its
      own, so entries with equal keys keep their original order (the sort is
      stable, as Python's is). */
  function Insert(e: Entry, sorted: seq<Entry>): (r: seq<Entry>)
    requires Ascending(sorted)
    ensures Ascending(r)
    ensures multiset(r) == multiset(sorted) + multiset{e}
  {
    if |sorted| == 0 then [e]
    else if !NotAfter(sorted[0].stamp, e.stamp) then
      NotAfterTotal(sorted[0].stamp, e.stamp);
      assert NoLaterThanAll(e.stamp, sorted) by {
        forall j | 0 <= j < |sorted|
          ensures NotAfter(e.stamp, sorted[j].stamp)
        {
          if j > 0 {
            NotAfterTransitive(e.stamp, sorted[0].stamp, sorted[j].stamp);
          }
        }
      }
      [e] + sorted
    else
      var rest := Insert(e, sorted[1..]);
      assert sorted == [sorted[0]] + sorted[1..];
      assert NoLaterThanAll(sorted[0].stamp, rest) by {
        forall j | 0 <= j < |rest|
          ensures NotAfter(sorted[0].stamp, rest[j].stamp)
        {
          assert rest[j] in multiset(rest);
          assert rest[j] == e || rest[j] in multiset(sorted[1..]);
          if rest[j] != e {
            var k :| 0 <= k < |sorted[1..]| && sorted[1..][k] == rest[j];
            assert sorted[k + 1] == rest[j];
          }
        }
      }
      [sorted[0]] + rest
  }

  /** The stable sort by timestamp (insertion sort, taking the input in order). */
  function SortByStamp(es: seq<Entry>): (r: seq<Entry>)
    ensures Ascending(r)
    ensures multiset(r) == multiset(es)
  {
    if |es| == 0 then []
    else
      assert es == es[..|es| - 1] + [es[|es| - 1]];
      Insert(es[|es| - 1], SortByStamp(es[..|es| - 1]))
  }

  /** No two different entries share a timestamp. */
  predicate StampsIdentify(es: seq<Entry>) {
    forall i, j :: 0 <= i < |es| && 0 <= j < |es| && es[i].stamp == es[j].stamp ==> es[i] == es[j]
  }

  /** Keys read from names identify the names: two admitted names that
      parse to the same timestamp are the same name. */
  lemma KeyedStampsIdentify(names: seq<string>)
    requires forall i :: 0 <= i < |names| ==> Matches(names[i])
    requires Keyed(names).Some?
    ensures StampsIdentify(Keyed(names).value)
  {
    var es := Keyed(names).value;
    forall i, j | 0 <= i < |es| && 0 <= j < |es| && es[i].stamp == es[j].stamp
      ensures es[i] == es[j]
    {
      ParsedNameIsCanonical(names[i]);
      ParsedNameIsCanonical(names[j]);
    }
  }

  lemma MultisetOfTails<T>(a: seq<T>, b: seq<T>)
    requires 0 < |a| && 0 < |b| && a[0] == b[0]
    requires multiset(a) == multiset(b)
    ensures multiset(a[1..]) == multiset(b[1..])
  {
    assert a == [a[0]] + a[1..];
    assert b == [b[0]] + b[1..];
    assert multiset(a[1..]) == multiset(a) - multiset{a[0]};
    assert multiset(b[1..]) == multiset(b) - multiset{b[0]};
  }

  /** Since a timestamp determines its archive name, there is only one way
      to order a collection of keyed archive names oldest first: the result
      above is the one Python's stable `sorted` produces, whatever the
      algorithm. */
  lemma {:induction false} AscendingOrderIsUnique(a: seq<Entry>, b: seq<Entry>)
    requires Ascending(a) && Ascending(b) && StampsIdentify(a)
    requires multiset(a) == multiset(b)
    ensures a == b
  {
    if |a| == 0 {
      assert |multiset(b)| == 0;
    } else {
      assert a[0] in multiset(a);
      var k :| 0 <= k < |b| && b[k] == a[0];
      assert b[0] in multiset(b);
      var m :| 0 <= m < |a| && a[m] == b[0];
      assert NotAfter(a[0].stamp, b[0].stamp) by {
        if m != 0 {
          assert NotAfter(a[0].stamp, a[m].stamp);
        }
      }
      assert NotAfter(b[0].stamp, a[0].stamp) by {
        if k != 0 {
          assert NotAfter(b[0].stamp, b[k].stamp);
        }
      }
      NotAfterAntisymmetric(a[0].stamp, b[0].stamp);
      assert a[0] == a[m] == b[0];
      MultisetOfTails(a, b);
      assert StampsIdentify(a[1..]) by {
        forall i, j | 0 <= i < |a[1..]| && 0 <= j < |a[1..]| && a[1..][i].stamp == a[1..][j].stamp
          ensures a[1..][i] == a[1..][j]
        {
          assert a[i + 1] == a[1..][i] && a[j + 1] == a[1..][j];
        }
      }
      AscendingOrderIsUnique(a[1..], b[1..]);
    }
  }

  // ---------------------------------------------------------------------
  // The deletion plan

  datatype Plan =
    | ListFailed                                   // `client.list('/')` raised
    | KeyFailed                                    // some admitted name did not parse
    | Prune(ordered: seq<Entry>, doomed: seq<string>)

  /** The names the pruner asks the server to delete, given the listing
      (`None` if listing failed) and `max_count`. Every key is computed
      before sorting, so one unparsable admitted name aborts the whole
      prune; the delete list is `sorted_files[:-max_count]`, taken only when
      there are more than `max_count` admitted names. */
  function PlanPrune(listing: Option<seq<string>>, maxCount: int): (p: Plan)
    ensures p.ListFailed? <==> listing.None?
    ensures p.KeyFailed? <==> listing.Some? && Keyed(Matching(listing.value)).None?
    ensures p.Prune? ==>
      && Ascending(p.ordered)
      && multiset(p.ordered) == multiset(Keyed(Matching(listing.value)).value)
      && |p.doomed| <= |p.ordered|
      && p.doomed == Names(p.ordered[..|p.doomed|])
    // at most max_count admitted names: nothing goes
    ensures p.Prune? && |p.ordered| <= maxCount ==> p.doomed == []
    // max_count 0 selects nothing, even when the pruner is called
    ensures p.Prune? && maxCount == 0 ==> p.doomed == []
    // 0 < max_count < n: exactly n - max_count go and max_count stay
    ensures p.Prune? && 0 < maxCount < |p.ordered| ==>
      |p.doomed| == |p.ordered| - maxCount && |p.ordered[|p.doomed|..]| == maxCount
    // a negative max_count selects the |max_count| oldest (all, if fewer)
    ensures p.Prune? && maxCount < 0 ==>
      |p.doomed| == (if -maxCount <= |p.ordered| then -maxCount else |p.ordered|)
  {
    match listing
    case None => ListFailed
    case Some(names) =>
      match Keyed(Matching(names))
      case None => KeyFailed
      case Some(keyed) =>
        var ordered := SortByStamp(keyed);
        var doomed := if |ordered| > maxCount then SliceTo(ordered, -maxCount) else [];
        assert doomed == ordered[..|doomed|];
        Prune(ordered, Names(doomed))
  }

  /** The plan's order is the only oldest-first arrangement of the keyed
      names, so it is the order Python's stable `sorted` produces, and the
      deleted names are the front of any such arrangement. */
  lemma PlannedOrderIsTheSortedOrder(listing: Option<seq<string>>, maxCount: int, other: seq<Entry>)
    requires PlanPrune(listing, maxCount).Prune?
    requires Ascending(other)
    requires multiset(other) == multiset(Keyed(Matching(listing.value)).value)
    ensures other == PlanPrune(listing, maxCount).ordered
    ensures PlanPrune(listing, maxCount).doomed == Names(other[..|PlanPrune(listing, maxCount).doomed|])
  {
    var p := PlanPrune(listing, maxCount);
    var keyed := Keyed(Matching(listing.value)).value;
    KeyedStampsIdentify(Matching(listing.value));
    StampsIdentifyPermuted(keyed, p.ordered);
    AscendingOrderIsUnique(p.ordered, other);
  }

  /** Reordering entries keeps timestamps identifying them. */
  lemma StampsIdentifyPermuted(a: seq<Entry>, b: seq<Entry>)
    requires StampsIdentify(a) && multiset(a) == multiset(b)
    ensures StampsIdentify(b)
  {
    forall i, j | 0 <= i < |b| && 0 <= j < |b| && b[i].stamp == b[j].stamp
      ensures b[i] == b[j]
    {
      assert b[i] in multiset(a) && b[j] in multiset(a);
      var k :| 0 <= k < |a| && a[k] == b[i];
      var l :| 0 <= l < |a| && a[l] == b[j];
    }
  }

  /** Remote names that the pattern does not admit are never selected,
      whatever `max_count` is; neither is anything absent from the listing. */
  lemma NonMatchingNeverSelected(names: seq<string>, maxCount: int, x: string)
    requires PlanPrune(Some(names), maxCount).Prune?
    requires x in PlanPrune(Some(names), maxCount).doomed
    ensures x in names && Matches(x)
  {
    var p := PlanPrune(Some(names), maxCount);
    var admitted := Matching(names);
    var keyed := Keyed(admitted).value;
    DoomedComeFrom(p.ordered, p.doomed, keyed, x);
    var k :| 0 <= k < |keyed| && keyed[k].name == x;
    assert admitted[k] == x;
    MatchingMembers(names, x);
  }

  /** A name taken from the front of a reordering of `keyed` is the name of
      some entry of `keyed`. */
  lemma DoomedComeFrom(ordered: seq<Entry>, doomed: seq<string>, keyed: seq<Entry>, x: string)
    requires |doomed| <= |ordered| && doomed == Names(ordered[..|doomed|])
    requires multiset(ordered) == multiset(keyed)
    requires x in doomed
    ensures exists k :: 0 <= k < |keyed| && keyed[k].name == x
  {
    var i :| 0 <= i < |doomed| && doomed[i] == x;
    var e := ordered[i];
    assert e.name == x;
    assert e in multiset(ordered);
    assert e in multiset(keyed);
    var k :| 0 <= k < |keyed| && keyed[k] == e;
  }

  /** The deleted names are the oldest: each is no later than every name
      that is kept. */
  lemma SelectedAreOldest(listing: Option<seq<string>>, maxCount: int, i: int, j: int)
    requires PlanPrune(listing, maxCount).Prune?
    requires 0 <= i < |PlanPrune(listing, maxCount).doomed| <= j < |PlanPrune(listing, maxCount).ordered|
    ensures PlanPrune(listing, maxCount).doomed[i] == PlanPrune(listing, maxCount).ordered[i].name
    ensures NotAfter(PlanPrune(listing, maxCount).ordered[i].stamp, PlanPrune(listing, maxCount).ordered[j].stamp)
  {
  }

  /** A single admitted but unparsable name (say, with text after `.zip`)
      aborts the prune, however many other names there are. */
  lemma UnparsableNameAborts(names: seq<string>, maxCount: int, x: string)
    requires x in names && Matches(x) && ParseStamp(x).None?
    ensures PlanPrune(Some(names), maxCount) == KeyFailed
  {
    MatchingMembers(names, x);
    var admitted := Matching(names);
    var k :| 0 <= k < |admitted| && admitted[k] == x;
  }

  // ---------------------------------------------------------------------
  // The requests the pruner sends

  datatype RemoteCall =
    | ListRoot                         // `client.list('/')`
    | Clean(path: string, ok: bool)    // `client.clean(path)` and whether it succeeded

  /** The request path of a remote archive. */
  function RemotePath(name: string): string {
    "/" + name
  }

  /** After the listing, one delete request per selected name, in order;
      a request succeeds unless its path is among the `refused` ones. */
  predicate CleansInOrder(calls: seq<RemoteCall>, doomed: seq<string>, refused: set<string>) {
    && |calls| == 1 + |doomed|
    && calls[0] == ListRoot
    && forall i :: 0 <= i < |doomed| ==>
         calls[i + 1] == Clean(RemotePath(doomed[i]), RemotePath(doomed[i]) !in refused)
  }

  /** The requests `__clean_old_backups(max_count)` sends. `listing` is what
      the server answers to the listing (`None` if it raised) and `refused`
      the paths whose deletion fails. A refused delete is logged and the
      loop goes on with the next name. */
  method PruneCalls(listing: Option<seq<string>>, maxCount: int, refused: set<string>)
    returns (calls: seq<RemoteCall>)
    ensures !PlanPrune(listing, maxCount).Prune? ==> calls == [ListRoot]
    ensures PlanPrune(listing, maxCount).Prune? ==>
      CleansInOrder(calls, PlanPrune(listing, maxCount).doomed, refused)
  {
    var plan := PlanPrune(listing, maxCount);
    if plan.Prune? {
      calls := CleanEach(plan.doomed, refused);
    } else {
      calls := [ListRoot];
    }
  }

  /** The listing request followed by the delete loop over `doomed`. */
  method CleanEach(doomed: seq<string>, refused: set<string>) returns (calls: seq<RemoteCall>)
    ensures CleansInOrder(calls, doomed, refused)
  {
    calls := [ListRoot];
    var n := 0;
    while n < |doomed|
      invariant 0 <= n <= |doomed|
      invariant CleansInOrder(calls, doomed[..n], refused)
    {
      var path := RemotePath(doomed[n]);
      calls := calls + [Clean(path, path !in refused)];
      n := n + 1;
    }
    assert doomed[..n] == doomed;
  }

  /** The remote directory after the requests: every successfully cleaned
      path is gone. */
  function After(store: set<string>, calls: seq<RemoteCall>): (r: set<string>)
    ensures r <= store
  {
    set x | x in store && Clean(RemotePath(x), true) !in calls
  }

  lemma RemotePathInjective(a: string, b: string)
    requires RemotePath(a) == RemotePath(b)
    ensures a == b
  {
    assert a == RemotePath(a)[1..];
  }

  /** A stored name disappears exactly when it was selected and its delete
      was not refused: a failed delete does not keep the others from going. */
  lemma {:induction false} AfterCleaning(store: set<string>, doomed: seq<string>, refused: set<string>,
                                         calls: seq<RemoteCall>, x: string)
    requires CleansInOrder(calls, doomed, refused)
    requires x in store
    ensures x !in After(store, calls) <==> x in doomed && RemotePath(x) !in refused
  {
    if Clean(RemotePath(x), true) in calls {
      var k :| 0 <= k < |calls| && calls[k] == Clean(RemotePath(x), true);
      assert k > 0;
      RemotePathInjective(x, doomed[k - 1]);
    }
    if x in doomed && RemotePath(x) !in refused {
      var i :| 0 <= i < |doomed| && doomed[i] == x;
      assert calls[i + 1] == Clean(RemotePath(x), true);
    }
  }

  /** What stays on the server after a prune: a stored name is removed
      exactly when it was selected and its delete was not refused, so names
      the pattern does not admit always stay. */
  lemma PruneOutcome(store: set<string>, names: seq<string>, maxCount: int,
                     refused: set<string>, calls: seq<RemoteCall>, x: string)
    requires PlanPrune(Some(names), maxCount).Prune?
    requires CleansInOrder(calls, PlanPrune(Some(names), maxCount).doomed, refused)
    requires x in store
    ensures x !in After(store, calls) <==>
      x in PlanPrune(Some(names), maxCount).doomed && RemotePath(x) !in refused
    ensures !Matches(x) ==> x in After(store, calls)
  {
    var doomed := PlanPrune(Some(names), maxCount).doomed;
    AfterCleaning(store, doomed, refused, calls, x);
    if x in doomed {
      NonMatchingNeverSelected(names, maxCount, x);
    }
  }
}
