/**
 * The account half of the browser database as the source writes it: a record of tables that calls
 * update in place (crates/idxdb-store/src/js/accounts.js). Each method is one database transaction and
 * is proved to leave exactly the tables its operation on AccountTables describes.
 */
module AccountDb {
  import opened Common
  import opened VersionedRows
  import opened VersionedLoops
  import opened AccountRows
  import opened AccountTables
  import opened AccountStack
  import opened StoreRefinement
  import StoreLaws
  import opened StoreEffects

  // ---------------------------------------------------------------- header rows

  /** The historical headers once the current header of `a`, if any, is archived at nonce `n`. */
  function Superseding(latest: map<AccountId, Header>, hh: map<Commitment, HeaderRow>, a: AccountId,
                       n: nat): map<Commitment, HeaderRow> {
    if a in latest then hh[latest[a].accountCommitment := HeaderRow(a, OldHeader(n, latest[a]))] else hh
  }

  /** Putting the archived header is what superseding means on the account's own rows. */
  lemma SupersedePut(t: Tables, a: AccountId, n: nat)
    ensures WithOwnHeaders(t.historicalHeaders, a, Supersede(RowsOf(t, a), n))
            == Superseding(t.latestHeaders, t.historicalHeaders, a, n)
  {
    hide Slice;
  }

  // ---------------------------------------------------------------- the undo of one account

  /** Nonces sorted so that the most recent comes first. */
  method SortDescending(ns: set<nat>) returns (s: seq<nat>)
    ensures Elements(s) == ns
    ensures forall i, j :: 0 <= i < j < |s| ==> s[j] < s[i]
  {
    s := [];
    var todo := ns;
    while todo != {}
      invariant todo <= ns && Elements(s) == ns - todo
      invariant forall i, j :: 0 <= i < j < |s| ==> s[j] < s[i]
      invariant forall i, n :: 0 <= i < |s| && n in todo ==> n < s[i]
    {
      var m := MaxOf(todo);
      assert Elements(s + [m]) == Elements(s) + {m};
      s := s + [m];
      todo := todo - {m};
    }
  }

  method MaxOf(ns: set<nat>) returns (m: nat)
    requires ns != {}
    ensures m in ns && forall n :: n in ns ==> n <= m
  {
    m :| m in ns;
    var todo := ns - {m};
    while todo != {}
      invariant todo <= ns && m in ns
      invariant forall n :: n in ns && n !in todo ==> n <= m
    {
      var n :| n in todo;
      if n > m { m := n; }
      todo := todo - {n};
    }
  }

  /** Undoing nonces from the highest down, one component: every key ends at its lowest archived value. */
  method UndoComponent<A(==, !new), K(==, !new), T>(latest: map<(A, K), Cell<T>>,
                                                    history: map<(A, (nat, K)), Archive<T>>,
                                                a: A, sorted: seq<nat>)
    returns (latest': map<(A, K), Cell<T>>)
    requires forall i, j :: 0 <= i < j < |sorted| ==> sorted[j] < sorted[i]
    ensures latest' == WithSlice(latest, a, Undone(Slice(latest, a), Slice(history, a), Elements(sorted)))
  {
    ghost var s, h := Slice(latest, a), Slice(history, a);
    latest' := latest;
    UndoneNothing(s, h);
    PairExtensional(latest, WithSlice(latest, a, s));
    assert Elements(sorted[..0]) == {};
    for i := 0 to |sorted|
      invariant latest' == WithSlice(latest, a, Undone(s, h, Elements(sorted[..i])))
    {
      hide Restored, Undone;
      var before := latest';
      latest' := RestoreRows(before, history, a, sorted[i]);
      ghost var ns := Elements(sorted[..i]);
      assert forall m :: m in ns ==> sorted[i] < m;
      UndoneStep(s, h, ns, sorted[i]);
      assert Elements(sorted[..i + 1]) == {sorted[i]} + ns;
      SliceOfWith(latest, a, Undone(s, h, ns), a);
      WithSliceTwice(latest, a, Undone(s, h, ns), Restored(Undone(s, h, ns), h, sorted[i]));
    }
    assert sorted[..|sorted|] == sorted;
  }

  lemma WithSliceTwice<A(!new), K(!new), V>(m: map<(A, K), V>, a: A, s: map<K, V>, s': map<K, V>)
    ensures WithSlice(WithSlice(m, a, s), a, s') == WithSlice(m, a, s')
  {
    PairExtensional(WithSlice(WithSlice(m, a, s), a, s'), WithSlice(m, a, s'));
  }

  /** Delete the historical rows of several nonces, one nonce after the other. */
  method DeleteEach<A(==, !new), K(==, !new), T>(history: map<(A, (nat, K)), Archive<T>>, a: A, ns: seq<nat>)
    returns (history': map<(A, (nat, K)), Archive<T>>)
    ensures history' == WithSlice(history, a, Without(Slice(history, a), Elements(ns)))
  {
    ghost var h := Slice(history, a);
    history' := history;
    WithoutNothing(h);
    assert Elements(ns[..0]) == {};
    PairExtensional(history, WithSlice(history, a, h));
    for i := 0 to |ns|
      invariant history' == WithSlice(history, a, Without(h, Elements(ns[..i])))
    {
      hide Without;
      var before := history';
      var dropped: nat;
      history', dropped := DeleteAt(before, a, ns[i]);
      SliceOfWith(history, a, Without(h, Elements(ns[..i])), a);
      WithoutTwice(h, Elements(ns[..i]), {ns[i]});
      assert Elements(ns[..i + 1]) == Elements(ns[..i]) + {ns[i]};
      WithSliceTwice(history, a, Without(h, Elements(ns[..i])), Without(h, Elements(ns[..i + 1])));
    }
    assert ns[..|ns|] == ns;
  }

  lemma WithoutNothing<K(!new), T>(h: Past<K, T>)
    ensures Without(h, {}) == h
  {
  }

  /** One account of an undo: restore from the highest nonce down, then the header, then drop the consumed rows. */
  method UndoOne(t: Tables, a: AccountId, ns: set<nat>) returns (t': Tables, ghost back: Option<Header>)
    requires ns != {}
    ensures IsPrevious(RowsOf(t, a), MinOf(ns), back)
    ensures t' == WithRows(t, a, UndoRowsTo(RowsOf(t, a), ns, back))
  {
    hide Slice, WithSlice, Undone, Without, UndoRowsTo, WithOwnHeaders, RowsOf, WithRows, IsPrevious, UndoneComponent;
    var sorted := SortDescending(ns);
    var slots := UndoComponent(t.latestSlots, t.historicalSlots, a, sorted);
    var entries := UndoComponent(t.latestEntries, t.historicalEntries, a, sorted);
    var assets := UndoComponent(t.latestAssets, t.historicalAssets, a, sorted);
    LastIsLeast(sorted, ns);
    var minNonce := sorted[|sorted| - 1];
    var headers := t.latestHeaders;
    var oldHeader := FindReplaced(t, a, minNonce);
    back := oldHeader;
    if oldHeader.Some? {
      headers := headers[a := oldHeader.value];
    } else {
      headers := headers - {a};
      slots := DeleteAccount(t.latestSlots, slots, a);
      entries := DeleteAccount(t.latestEntries, entries, a);
      assets := DeleteAccount(t.latestAssets, assets, a);
    }
    var pastSlots := DeleteEach(t.historicalSlots, a, sorted);
    var pastEntries := DeleteEach(t.historicalEntries, a, sorted);
    var pastAssets := DeleteEach(t.historicalAssets, a, sorted);
    var pastHeaders := DeleteHeaders(t, a, sorted, ns, back);
    t' := t.(latestSlots := slots, latestEntries := entries, latestAssets := assets, latestHeaders := headers,
             historicalSlots := pastSlots, historicalEntries := pastEntries, historicalAssets := pastAssets,
             historicalHeaders := pastHeaders);
    ComponentDone(t.latestSlots, t.historicalSlots, a, ns, back.None?, slots, pastSlots);
    ComponentDone(t.latestEntries, t.historicalEntries, a, ns, back.None?, entries, pastEntries);
    ComponentDone(t.latestAssets, t.historicalAssets, a, ns, back.None?, assets, pastAssets);
    UndoneTables(t, a, ns, back, t');
  }

  /** Delete the latest rows of one account from a table that differs from `was` in that account only. */
  method DeleteAccount<A(==, !new), K(==, !new), V>(ghost was: map<(A, K), V>, latest: map<(A, K), V>, a: A)
    returns (latest': map<(A, K), V>)
    requires exists s :: latest == WithSlice(was, a, s)
    ensures latest' == WithSlice(was, a, map[])
  {
    latest' := map p | p in latest && p.0 != a :: latest[p];
    PairExtensional(latest', WithSlice(was, a, map[]));
  }

  method DeleteHeaders(t: Tables, a: AccountId, sorted: seq<nat>, ghost ns: set<nat>, ghost back: Option<Header>)
    returns (past: map<Commitment, HeaderRow>)
    requires ns == Elements(sorted)
    ensures past == WithOwnHeaders(t.historicalHeaders, a, UndoRowsTo(RowsOf(t, a), ns, back).archived)
  {
    hide WithOwnHeaders, UndoRowsTo, RowsOf;
    past := map c | c in t.historicalHeaders
        && !(t.historicalHeaders[c].id == a && t.historicalHeaders[c].old_.replacedAtNonce in sorted)
      :: t.historicalHeaders[c];
    UndoneHeaders(t, a, ns, back, past);
  }

  lemma LastIsLeast(sorted: seq<nat>, ns: set<nat>)
    requires Elements(sorted) == ns && ns != {}
    requires forall i, j :: 0 <= i < j < |sorted| ==> sorted[j] < sorted[i]
    ensures sorted != [] && sorted[|sorted| - 1] == MinOf(ns)
  {
    assert MinOf(ns) in sorted;
    assert sorted[|sorted| - 1] in ns;
  }

  /** A header that a nonce replaced, looked up by account and nonce: some match, if there is one. */
  method FindReplaced(t: Tables, a: AccountId, n: nat) returns (h: Option<Header>)
    ensures IsPrevious(RowsOf(t, a), n, h)
  {
    hide Slice;
    var rows := set c | c in t.historicalHeaders && t.historicalHeaders[c].id == a
        && t.historicalHeaders[c].old_.replacedAtNonce == n;
    assert forall c :: c in rows <==> ReplacedAt(RowsOf(t, a), n, c);
    if rows == {} {
      h := None;
    } else {
      var c :| c in rows;
      h := Some(t.historicalHeaders[c].old_.header);
      assert ReplacedAt(RowsOf(t, a), n, c);
    }
  }

  /** Where a nonce replaced one header at most, there is no choice. */
  lemma PreviousUnique(r: Rows, n: nat, back: Option<Header>)
    requires UniqueReplacement(r) && IsPrevious(r, n, back)
    ensures back == PreviousHeader(r, n)
  {
  }

  lemma UndoneHeaders(t: Tables, a: AccountId, ns: set<nat>, back: Option<Header>, past: map<Commitment, HeaderRow>)
    requires past == map c | c in t.historicalHeaders
                 && !(t.historicalHeaders[c].id == a && t.historicalHeaders[c].old_.replacedAtNonce in ns)
               :: t.historicalHeaders[c]
    ensures past == WithOwnHeaders(t.historicalHeaders, a, UndoRowsTo(RowsOf(t, a), ns, back).archived)
  {
    hide Slice, UndoContents, Forget;
  }

  /** The latest rows of a component after the undo: restored, or none where the account is gone. */
  ghost predicate UndoneComponent<K(!new), T>(latest: map<(AccountId, K), Cell<T>>,
                                              history: map<(AccountId, (nat, K)), Archive<T>>, a: AccountId,
                                                  ns: set<nat>, gone: bool,
                                              latest': map<(AccountId, K), Cell<T>>,
                                              history': map<(AccountId, (nat, K)), Archive<T>>)
  {
    && latest' == WithSlice(latest, a, if gone then map[] else Undone(Slice(latest, a), Slice(history, a), ns))
    && history' == WithSlice(history, a, Without(Slice(history, a), ns))
  }

  lemma ComponentDone<K(!new), T>(latest: map<(AccountId, K), Cell<T>>, history: map<(AccountId, (nat, K)), Archive<T>>,
                                  a: AccountId, ns: set<nat>, gone: bool,
                                  latest': map<(AccountId, K), Cell<T>>,
                                      history': map<(AccountId, (nat, K)), Archive<T>>)
    requires latest' == WithSlice(latest, a, if gone then map[] else Undone(Slice(latest, a), Slice(history, a), ns))
    requires history' == WithSlice(history, a, Without(Slice(history, a), ns))
    ensures UndoneComponent(latest, history, a, ns, gone, latest', history')
  {
  }

  lemma UndoneTables(t: Tables, a: AccountId, ns: set<nat>, back: Option<Header>, t': Tables)
    requires t'.codes == t.codes && t'.foreignCodes == t.foreignCodes
    requires t'.historicalHeaders == WithOwnHeaders(t.historicalHeaders, a, UndoRowsTo(RowsOf(t, a), ns, back).archived)
    requires t'.latestHeaders == if back.Some? then t.latestHeaders[a := back.value] else t.latestHeaders - {a}
    requires UndoneComponent(t.latestSlots, t.historicalSlots, a, ns, back.None?, t'.latestSlots, t'.historicalSlots)
    requires UndoneComponent(t.latestEntries, t.historicalEntries, a, ns, back.None?, t'.latestEntries,
                             t'.historicalEntries)
    requires UndoneComponent(t.latestAssets, t.historicalAssets, a, ns, back.None?, t'.latestAssets,
                             t'.historicalAssets)
    ensures t' == WithRows(t, a, UndoRowsTo(RowsOf(t, a), ns, back))
  {
    hide Slice, WithSlice, Undone, Without, WithOwnHeaders;
  }

  // ---------------------------------------------------------------- resolving commitments

  /** No two latest headers share a commitment. */
  ghost predicate LatestDistinct(t: Tables) {
    forall a, b | a in t.latestHeaders && b in t.latestHeaders
      :: t.latestHeaders[a].accountCommitment == t.latestHeaders[b].accountCommitment ==> a == b
  }

  /** Tables that represent stacks meet what the undo relies on. */
  lemma RepresentsAllowsUndo(t: Tables, g: Stacks)
    requires Represents(t, g)
    ensures LatestDistinct(t) && forall a :: UniqueReplacement(RowsOf(t, a))
  {
    hide Tracked, SelfConsistent;
    forall a, b | a in t.latestHeaders && b in t.latestHeaders && a != b
      ensures t.latestHeaders[a].accountCommitment != t.latestHeaders[b].accountCommitment
    {
      assert t.latestHeaders[a].accountCommitment in Commitments(RowsOf(t, a));
      assert t.latestHeaders[b].accountCommitment in Commitments(RowsOf(t, b));
    }
    forall a ensures UniqueReplacement(RowsOf(t, a)) {
      StoreLaws.StoreReplacesOnce(t, g, a);
    }
  }

  /** What one commitment adds to the nonces of account `a`. */
  ghost function Resolved(t: Tables, c: Commitment, a: AccountId): set<nat> {
    if a in t.latestHeaders && t.latestHeaders[a].accountCommitment == c then {t.latestHeaders[a].nonce}
    else if c in t.historicalHeaders && t.historicalHeaders[c].id == a && !IsLatest(t, c) then
      {t.historicalHeaders[c].old_.header.nonce}
    else {}
  }

  lemma ResolvedAdds(t: Tables, cs: set<Commitment>, c: Commitment, a: AccountId)
    ensures DiscardedOf(t, cs + {c}, a) == DiscardedOf(t, cs, a) + Resolved(t, c, a)
  {
  }

  ghost predicate Collected(t: Tables, cs: set<Commitment>, nonces: map<AccountId, set<nat>>) {
    forall a :: if DiscardedOf(t, cs, a) == {} then a !in nonces else a in nonces && nonces[a] == DiscardedOf(t, cs, a)
  }

  /** What looking a commitment up may give: a latest header with it, or, if there is none, the historical one. */
  ghost predicate LooksUp(t: Tables, c: Commitment, r: Option<(AccountId, nat)>) {
    if IsLatest(t, c) then
      && r.Some? && r.value.0 in t.latestHeaders
      && t.latestHeaders[r.value.0].accountCommitment == c && t.latestHeaders[r.value.0].nonce == r.value.1
    else if c in t.historicalHeaders then
      r == Some((t.historicalHeaders[c].id, t.historicalHeaders[c].old_.header.nonce))
    else r == None
  }

  /** Look one commitment up, in the latest headers first: some match, if there is one. */
  method ResolveOne(t: Tables, c: Commitment) returns (r: Option<(AccountId, nat)>)
    ensures LooksUp(t, c, r)
  {
    var owners := set a | a in t.latestHeaders && t.latestHeaders[a].accountCommitment == c;
    assert forall a :: a in t.latestHeaders && t.latestHeaders[a].accountCommitment == c ==> a in owners;
    if owners != {} {
      var a :| a in owners;
      r := Some((a, t.latestHeaders[a].nonce));
      assert IsLatest(t, c);
    } else if c in t.historicalHeaders {
      assert !IsLatest(t, c);
      r := Some((t.historicalHeaders[c].id, t.historicalHeaders[c].old_.header.nonce));
    } else {
      r := None;
    }
  }

  /** Where no two latest headers share a commitment, there is no choice. */
  lemma LookupUnique(t: Tables, c: Commitment, r: Option<(AccountId, nat)>)
    requires LatestDistinct(t) && LooksUp(t, c, r)
    ensures forall a :: Resolved(t, c, a) == if r.Some? && r.value.0 == a then {r.value.1} else {}
  {
  }

  /** The nonces that were looked up, by account. */
  function Grouped(picks: seq<Option<(AccountId, nat)>>): map<AccountId, set<nat>> {
    if picks == [] then map[]
    else
      var front, r := Grouped(picks[..|picks| - 1]), picks[|picks| - 1];
      if r.Some? then AddNonce(front, r.value.0, r.value.1) else front
  }

  lemma {:induction false} GroupedCollects(t: Tables, commitments: seq<Commitment>,
                                           picks: seq<Option<(AccountId, nat)>>)
    requires LatestDistinct(t) && |picks| == |commitments|
    requires forall i :: 0 <= i < |picks| ==> LooksUp(t, commitments[i], picks[i])
    ensures Collected(t, Elements(commitments), Grouped(picks))
  {
    hide DiscardedOf, Resolved, LatestDistinct, AddNonce, LooksUp, Collected;
    if picks == [] {
      assert Elements(commitments) == {};
      NothingCollected(t);
    } else {
      var last := |picks| - 1;
      GroupedCollects(t, commitments[..last], picks[..last]);
      LookupUnique(t, commitments[last], picks[last]);
      CollectOne(t, Elements(commitments[..last]), commitments[last], Grouped(picks[..last]), picks[last]);
      assert commitments == commitments[..last] + [commitments[last]];
      ElementsAppend(commitments[..last], commitments[last]);
    }
  }

  lemma CollectOne(t: Tables, cs: set<Commitment>, c: Commitment, nonces: map<AccountId, set<nat>>,
                   r: Option<(AccountId, nat)>)
    requires Collected(t, cs, nonces)
    requires forall a :: Resolved(t, c, a) == if r.Some? && r.value.0 == a then {r.value.1} else {}
    ensures Collected(t, cs + {c}, if r.Some? then AddNonce(nonces, r.value.0, r.value.1) else nonces)
  {
    hide DiscardedOf, Resolved;
    var nonces' := if r.Some? then AddNonce(nonces, r.value.0, r.value.1) else nonces;
    forall a
      ensures if DiscardedOf(t, cs + {c}, a) == {} then a !in nonces'
              else a in nonces' && nonces'[a] == DiscardedOf(t, cs + {c}, a)
    {
      ResolvedAdds(t, cs, c, a);
      assert if DiscardedOf(t, cs, a) == {} then a !in nonces else a in nonces && nonces[a] == DiscardedOf(t, cs, a);
    }
  }

  lemma {:induction false} GroupedNonEmpty(picks: seq<Option<(AccountId, nat)>>)
    ensures forall a :: a in Grouped(picks) ==> Grouped(picks)[a] != {}
  {
    if picks != [] {
      GroupedNonEmpty(picks[..|picks| - 1]);
    }
  }

  /** Group the nonces of the discarded commitments by account. */
  method Resolve(t: Tables, commitments: seq<Commitment>)
    returns (nonces: map<AccountId, set<nat>>, ghost picks: seq<Option<(AccountId, nat)>>)
    ensures |picks| == |commitments| && forall i :: 0 <= i < |picks| ==> LooksUp(t, commitments[i], picks[i])
    ensures nonces == Grouped(picks)
    ensures LatestDistinct(t) ==> nonces == Discarded(t, Elements(commitments))
  {
    hide DiscardedOf, LatestDistinct, AddNonce, LooksUp, Collected;
    nonces, picks := map[], [];
    for i := 0 to |commitments|
      invariant |picks| == i && forall j :: 0 <= j < i ==> LooksUp(t, commitments[j], picks[j])
      invariant nonces == Grouped(picks)
    {
      var r := ResolveOne(t, commitments[i]);
      assert (picks + [r])[..i] == picks;
      picks := picks + [r];
      if r.Some? {
        nonces := AddNonce(nonces, r.value.0, r.value.1);
      }
    }
    if LatestDistinct(t) {
      GroupedCollects(t, commitments, picks);
      CollectedAll(t, Elements(commitments), nonces);
    }
  }

  lemma NothingCollected(t: Tables)
    ensures Collected(t, {}, map[])
  {
  }

  lemma CollectedAll(t: Tables, cs: set<Commitment>, nonces: map<AccountId, set<nat>>)
    requires Collected(t, cs, nonces)
    ensures nonces == Discarded(t, cs)
  {
    hide DiscardedOf;
    forall a ensures Get(nonces, a) == Get(Discarded(t, cs), a) {
      assert if DiscardedOf(t, cs, a) == {} then a !in nonces else a in nonces && nonces[a] == DiscardedOf(t, cs, a);
    }
    GetExtensional(nonces, Discarded(t, cs));
  }

  function AddNonce(nonces: map<AccountId, set<nat>>, a: AccountId, n: nat): map<AccountId, set<nat>> {
    nonces[a := (if a in nonces then nonces[a] else {}) + {n}]
  }

  /** Every account with discarded nonces is undone, back to a header that the lowest of them replaced. */
  ghost predicate UndoneAll(t: Tables, nonces: map<AccountId, set<nat>>, backs: map<AccountId, Option<Header>>,
                            t': Tables) {
    && backs.Keys == nonces.Keys && NoNewHeaders(t, t')
    && (forall a :: a in nonces ==> nonces[a] != {} && IsPrevious(RowsOf(t, a), MinOf(nonces[a]), backs[a]))
    && (forall b :: RowsOf(t', b) == if b in nonces then UndoRowsTo(RowsOf(t, b), nonces[b], backs[b])
        else RowsOf(t, b))
  }

  /** Undo every account that has discarded nonces, in whatever order the accounts come. */
  method UndoStates(t: Tables, commitments: seq<Commitment>)
    returns (t': Tables, ghost picks: seq<Option<(AccountId, nat)>>, ghost backs: map<AccountId, Option<Header>>)
    ensures |picks| == |commitments| && forall i :: 0 <= i < |picks| ==> LooksUp(t, commitments[i], picks[i])
    ensures UndoneAll(t, Grouped(picks), backs, t')
    ensures LatestDistinct(t) && (forall a :: UniqueReplacement(RowsOf(t, a))) ==> t' == Undo(t, Elements(commitments))
  {
    hide RowsOf, UndoRowsTo, UniqueReplacement, DiscardedOf, WithRows, Undo, NoNewHeaders, LatestDistinct, IsPrevious,
         LooksUp, Grouped;
    var nonces;
    nonces, picks := Resolve(t, commitments);
    GroupedNonEmpty(picks);
    t', backs := t, map[];
    NoNewHeadersSame(t);
    var todo := nonces.Keys;
    while todo != {}
      invariant todo <= nonces.Keys && NoNewHeaders(t, t') && backs.Keys == nonces.Keys - todo
      invariant forall a :: a in backs ==> IsPrevious(RowsOf(t, a), MinOf(nonces[a]), backs[a])
      invariant forall b :: RowsOf(t', b) == if b in backs then UndoRowsTo(RowsOf(t, b), nonces[b], backs[b])
                else RowsOf(t, b)
    {
      var a :| a in todo;
      var before := t';
      assert RowsOf(before, a) == RowsOf(t, a);
      ghost var back;
      t', back := UndoOne(before, a, nonces[a]);
      forall b
        ensures RowsOf(t', b) == (if b == a then UndoRowsTo(RowsOf(t, a), nonces[a], back) else RowsOf(before, b))
        ensures NoNewHeaders(t, t')
      {
        UndoOneAccount(t, before, a, nonces[a], back, b);
      }
      todo, backs := todo - {a}, backs[a := back];
    }
    assert UndoneAll(t, nonces, backs, t');
    if LatestDistinct(t) && forall a :: UniqueReplacement(RowsOf(t, a)) {
      UndoneEverywhere(t, Elements(commitments), nonces, backs, t');
    }
  }

  lemma UndoneEverywhere(t: Tables, cs: set<Commitment>, nonces: map<AccountId, set<nat>>,
                         backs: map<AccountId, Option<Header>>, t': Tables)
    requires nonces == Discarded(t, cs) && UndoneAll(t, nonces, backs, t')
             && forall a :: UniqueReplacement(RowsOf(t, a))
    ensures t' == Undo(t, cs)
  {
    hide RowsOf, UndoRowsTo, DiscardedOf, Undo, PreviousHeader, IsPrevious, UniqueReplacement;
    forall b ensures RowsOf(t', b) == RowsOf(Undo(t, cs), b) {
      RowsOfUndo(t, cs, b);
      if b in nonces {
        PreviousUnique(RowsOf(t, b), MinOf(nonces[b]), backs[b]);
      }
    }
    RowsOfUndo(t, cs, "");
    RowsDetermine(t', Undo(t, cs));
  }

  // ---------------------------------------------------------------- pruning with a count

  /** The tables without some historical headers and without account `a`'s rows at the nonces `ns`. */
  function Dropped(t: Tables, a: AccountId, ns: set<nat>, headers: set<Commitment>): Tables {
    t.(historicalSlots := WithSlice(t.historicalSlots, a, Without(Slice(t.historicalSlots, a), ns)),
       historicalEntries := WithSlice(t.historicalEntries, a, Without(Slice(t.historicalEntries, a), ns)),
       historicalAssets := WithSlice(t.historicalAssets, a, Without(Slice(t.historicalAssets, a), ns)),
       historicalHeaders := t.historicalHeaders - headers)
  }

  lemma DroppedNothing(t: Tables, a: AccountId)
    ensures Dropped(t, a, {}, {}) == t
  {
    hide Without, Slice, WithSlice;
    NothingDeleted(t.historicalSlots, a);
    NothingDeleted(t.historicalEntries, a);
    NothingDeleted(t.historicalAssets, a);
    assert t.historicalHeaders - {} == t.historicalHeaders;
  }

  lemma DroppedMore(t: Tables, a: AccountId, ns: set<nat>, headers: set<Commitment>, n: nat, c: Commitment)
    ensures Dropped(Dropped(t, a, ns, headers), a, {n}, {c}) == Dropped(t, a, ns + {n}, headers + {c})
  {
    hide Without, Slice, WithSlice;
    DeletedMore(t.historicalSlots, a, ns, n);
    DeletedMore(t.historicalEntries, a, ns, n);
    DeletedMore(t.historicalAssets, a, ns, n);
    assert t.historicalHeaders - headers - {c} == t.historicalHeaders - (headers + {c});
  }

  /** The rows of the four historical tables. */
  function HistoryRows(t: Tables): nat {
    |t.historicalHeaders| + |t.historicalSlots| + |t.historicalEntries| + |t.historicalAssets|
  }

  /** Delete one header and the rows archived at its nonce, counting them. */
  method PruneOne(t: Tables, a: AccountId, c: Commitment) returns (t': Tables, count: nat)
    requires c in t.historicalHeaders
    ensures t' == Dropped(t, a, {t.historicalHeaders[c].old_.replacedAtNonce}, {c})
    ensures count == HistoryRows(t) - HistoryRows(t')
  {
    hide Without, Slice, WithSlice;
    var rat := t.historicalHeaders[c].old_.replacedAtNonce;
    var headers := t.historicalHeaders - {c};
    assert headers.Keys == t.historicalHeaders.Keys - {c};
    var slots, s := DeleteAt(t.historicalSlots, a, rat);
    var entries, e := DeleteAt(t.historicalEntries, a, rat);
    var assets, v := DeleteAt(t.historicalAssets, a, rat);
    count := 1 + s + e + v;
    t' := t.(historicalSlots := slots, historicalEntries := entries, historicalAssets := assets,
             historicalHeaders := headers);
  }

  ghost function RatsOf(t: Tables, cs: set<Commitment>): set<nat>
    requires cs <= t.historicalHeaders.Keys
  {
    set c | c in cs :: t.historicalHeaders[c].old_.replacedAtNonce
  }

  /** Delete the listed headers one by one, each with the rows archived at its nonce. */
  method PruneEach(t: Tables, a: AccountId, toPrune: set<Commitment>) returns (t': Tables, total: nat)
    requires toPrune <= t.historicalHeaders.Keys
    ensures t' == Dropped(t, a, RatsOf(t, toPrune), toPrune)
    ensures total == HistoryRows(t) - HistoryRows(t')
  {
    hide HistoryRows;
    t', total := t, 0;
    DroppedNothing(t, a);
    var todo := toPrune;
    ghost var gone: set<Commitment> := {};
    assert RatsOf(t, gone) == {};
    while todo != {}
      invariant todo <= toPrune && gone == toPrune - todo
      invariant t' == Dropped(t, a, RatsOf(t, gone), gone)
      invariant total == HistoryRows(t) - HistoryRows(t')
    {
      var c :| c in todo;
      DroppedMore(t, a, RatsOf(t, gone), gone, t.historicalHeaders[c].old_.replacedAtNonce, c);
      assert RatsOf(t, gone + {c}) == RatsOf(t, gone) + {t.historicalHeaders[c].old_.replacedAtNonce};
      assert t'.historicalHeaders[c] == t.historicalHeaders[c];
      var count: nat;
      t', count := PruneOne(t', a, c);
      total := total + count;
      gone := gone + {c};
      todo := todo - {c};
    }
    assert gone == toPrune;
  }

  lemma NothingDeleted<A(!new), K(!new), T>(history: map<(A, (nat, K)), Archive<T>>, a: A)
    ensures WithSlice(history, a, Without(Slice(history, a), {})) == history
  {
    WithoutNothing(Slice(history, a));
    PairExtensional(history, WithSlice(history, a, Slice(history, a)));
  }

  lemma DeletedMore<A(!new), K(!new), T>(history: map<(A, (nat, K)), Archive<T>>, a: A, ns: set<nat>, n: nat)
    ensures var once := WithSlice(history, a, Without(Slice(history, a), ns));
            WithSlice(once, a, Without(Slice(once, a), {n}))
                == WithSlice(history, a, Without(Slice(history, a), ns + {n}))
  {
    hide Without, Slice, WithSlice;
    var h := Slice(history, a);
    SliceOfWith(history, a, Without(h, ns), a);
    WithoutTwice(h, ns, {n});
    WithSliceTwice(history, a, Without(h, ns), Without(h, ns + {n}));
  }

  /** Delete every candidate root nothing refers to, counting each, stored or not. */
  method CollectCode(codes: map<CodeRoot, string>, candidates: set<CodeRoot>, referenced: set<CodeRoot>)
    returns (codes': map<CodeRoot, string>, total: nat)
    ensures codes' == codes - (candidates - referenced)
    ensures total == |candidates - referenced|
  {
    codes', total := codes, 0;
    var todo := candidates;
    ghost var gone: set<CodeRoot> := {};
    while todo != {}
      invariant todo <= candidates && gone !! todo
      invariant forall root :: root in gone <==> root in candidates && root !in todo && root !in referenced
      invariant forall root :: Get(codes', root) == if root in gone then None else Get(codes, root)
      invariant total == |gone|
    {
      var root :| root in todo;
      if root !in referenced {
        codes', total, gone := codes' - {root}, total + 1, gone + {root};
      }
      todo := todo - {root};
    }
    assert gone == candidates - referenced;
    GetExtensional(codes', codes - gone);
  }

  lemma PrunedTables(t: Tables, a: AccountId, upTo: nat)
    ensures Dropped(t, a, PrunedNonces(RowsOf(t, a), upTo), PrunedCommitments(RowsOf(t, a), upTo))
            == PruneAccount(t, a, upTo)
  {
    hide Without, PrunedNonces, PrunedCommitments, Slice, WithSlice, OwnHeaders, WithOwnHeaders;
    SameSlice(t.latestSlots, a);
    SameSlice(t.latestEntries, a);
    SameSlice(t.latestAssets, a);
    PrunedHeaderRows(t, a, upTo);
    SameHeader(t.latestHeaders, a);
  }

  lemma SameSlice<A(!new), K(!new), V>(m: map<(A, K), V>, a: A)
    ensures WithSlice(m, a, Slice(m, a)) == m
  {
    PairExtensional(m, WithSlice(m, a, Slice(m, a)));
  }

  lemma SameHeader(headers: map<AccountId, Header>, a: AccountId)
    ensures (if Get(headers, a).Some? then headers[a := Get(headers, a).value] else headers - {a}) == headers
  {
  }

  lemma PrunedHeaderRows(t: Tables, a: AccountId, upTo: nat)
    ensures t.historicalHeaders - PrunedCommitments(RowsOf(t, a), upTo) ==
            WithOwnHeaders(t.historicalHeaders, a, PruneRows(RowsOf(t, a), upTo).archived)
  {
    hide Forget, Slice;
  }

  /**
   * Prune one account's history and the code it leaves orphaned. The count is one for every header replaced at or
   * below the bound, one for every row of the account archived at such a nonce, and one for every code root that only
   * those headers used, stored or not.
   */
  method PruneStates(t: Tables, a: AccountId, upTo: nat) returns (t': Tables, total: nat)
    ensures t' == Prune(t, a, upTo)
    ensures total == |OldHeaders(t, a, upTo)|
                     + |OldRows(t, a, upTo, t.historicalSlots)|
                     + |OldRows(t, a, upTo, t.historicalEntries)|
                     + |OldRows(t, a, upTo, t.historicalAssets)|
                     + |OrphanedRoots(t, a, upTo)|
  {
    hide Dropped, PruneAccount, RowsOf, Referenced, PrunedCommitments, PrunedNonces, CollectedRoots, Old, OldNonce,
         Orphaned, HistoryRows, OldHeaders, OldRows, OrphanedRoots;
    var toPrune := set c | c in t.historicalHeaders && t.historicalHeaders[c].id == a
        && t.historicalHeaders[c].old_.replacedAtNonce <= upTo;
    var candidates := set c | c in toPrune :: t.historicalHeaders[c].old_.header.codeRoot;
    PrunedAre(t, a, upTo, toPrune, candidates);
    var left, deleted := PruneEach(t, a, toPrune);
    PrunedTables(t, a, upTo);
    var codes, collected := CollectCode(left.codes, candidates, Referenced(left));
    t', total := left.(codes := codes), deleted + collected;
    CollectedAre(t, a, upTo, candidates);
    PruneCodes(t, a, upTo);
    RowsGone(t, a, upTo);
    RootsGone(t, a, upTo);
  }

  /** How many rows a prune takes from the historical tables. */
  lemma RowsGone(t: Tables, a: AccountId, upTo: nat)
    ensures var left := PruneAccount(t, a, upTo);
            HistoryRows(t) - HistoryRows(left)
            == |OldHeaders(t, a, upTo)|
               + |OldRows(t, a, upTo, t.historicalSlots)|
               + |OldRows(t, a, upTo, t.historicalEntries)|
               + |OldRows(t, a, upTo, t.historicalAssets)|
  {
    hide Prune, PruneAccount, RowsOf, Old, OldNonce, Orphaned, PrunedOf, OldRows;
    var t' := Prune(t, a, upTo);
    PruneEffect(t, a, upTo);
    SameHistory(t, a, upTo);
    ComponentGone(t, a, upTo, t.historicalSlots, t'.historicalSlots);
    ComponentGone(t, a, upTo, t.historicalEntries, t'.historicalEntries);
    ComponentGone(t, a, upTo, t.historicalAssets, t'.historicalAssets);
    HeadersGone(t.historicalHeaders, t'.historicalHeaders, OldHeaders(t, a, upTo));
  }

  lemma SameHistory(t: Tables, a: AccountId, upTo: nat)
    ensures var t', left := Prune(t, a, upTo), PruneAccount(t, a, upTo);
            && t'.historicalHeaders == left.historicalHeaders && t'.historicalSlots == left.historicalSlots
            && t'.historicalEntries == left.historicalEntries && t'.historicalAssets == left.historicalAssets
  {
    hide PruneAccount, CollectedRoots;
  }

  lemma HeadersGone<X(!new), V>(m: map<X, V>, m': map<X, V>, gone: set<X>)
    requires gone <= m.Keys && forall x :: Get(m', x) == if x in gone then None else Get(m, x)
    ensures |m| - |m'| == |gone|
  {
    forall x ensures x in m' <==> x in m && x !in gone {
      assert Get(m', x) == if x in gone then None else Get(m, x);
    }
    assert m'.Keys == m.Keys - gone;
    assert m.Keys == m'.Keys + gone;
  }

  lemma ComponentGone<K(!new), T(!new)>(t: Tables, a: AccountId, upTo: nat,
                                        history: map<(AccountId, (nat, K)), Archive<T>>,
                                  history': map<(AccountId, (nat, K)), Archive<T>>)
    requires PrunedOf(t, a, upTo, history, history')
    ensures |history| - |history'| == |OldRows(t, a, upTo, history)|
  {
    hide OldNonce;
    var gone := OldRows(t, a, upTo, history);
    forall p: (AccountId, (nat, K)) ensures Get(history', p) == if p in gone then None else Get(history, p) {
      var (b, (n, k)) := p;
      assert Get(history', (b, (n, k))) == if b == a && OldNonce(t, a, upTo, n) then None
             else Get(history, (b, (n, k)));
    }
    HeadersGone(history, history', gone);
  }

  lemma RootsGone(t: Tables, a: AccountId, upTo: nat)
    ensures CollectedRoots(t, a, upTo) == OrphanedRoots(t, a, upTo)
  {
    hide CollectedRoots;
    var roots := OrphanedRoots(t, a, upTo);
    forall root ensures root in CollectedRoots(t, a, upTo) <==> root in roots {
      OrphanedIff(t, a, upTo, root);
      if Orphaned(t, a, upTo, root) {
        var c :| Old(t, a, upTo, c) && t.historicalHeaders[c].old_.header.codeRoot == root;
        assert c in t.historicalHeaders;
      }
    }
  }

  lemma CollectedAre(t: Tables, a: AccountId, upTo: nat, candidates: set<CodeRoot>)
    requires candidates == set c | c in PrunedCommitments(RowsOf(t, a), upTo)
                             :: RowsOf(t, a).archived[c].header.codeRoot
    ensures CollectedRoots(t, a, upTo) == candidates - Referenced(PruneAccount(t, a, upTo))
  {
    hide RowsOf, PruneAccount, Referenced, PrunedCommitments;
  }

  lemma PruneCodes(t: Tables, a: AccountId, upTo: nat)
    ensures PruneAccount(t, a, upTo).codes == t.codes
  {
  }

  lemma PrunedAre(t: Tables, a: AccountId, upTo: nat, toPrune: set<Commitment>, candidates: set<CodeRoot>)
    requires toPrune == set c | c in t.historicalHeaders && t.historicalHeaders[c].id == a
             && t.historicalHeaders[c].old_.replacedAtNonce <= upTo
    requires candidates == set c | c in toPrune :: t.historicalHeaders[c].old_.header.codeRoot
    ensures toPrune == PrunedCommitments(RowsOf(t, a), upTo)
    ensures toPrune <= t.historicalHeaders.Keys && PrunedNonces(RowsOf(t, a), upTo) == RatsOf(t, toPrune)
    ensures candidates == set c | c in PrunedCommitments(RowsOf(t, a), upTo) :: RowsOf(t, a).archived[c].header.codeRoot
  {
    hide Slice;
  }

  // ---------------------------------------------------------------- writing

  /** Archive the current header, if there is one, then put the new one. */
  method ReplaceHeader(t: Tables, a: AccountId, h: Header) returns (t': Tables)
    ensures t' == t.(latestHeaders := t.latestHeaders[a := h],
                     historicalHeaders := Superseding(t.latestHeaders, t.historicalHeaders, a, h.nonce))
  {
    t' := t;
    if a in t.latestHeaders {
      var row := HeaderRow(a, OldHeader(h.nonce, t.latestHeaders[a]));
      t' := t'.(historicalHeaders := t.historicalHeaders[t.latestHeaders[a].accountCommitment := row]);
    }
    t' := t'.(latestHeaders := t.latestHeaders[a := h]);
  }

  method WriteDeltaRows(t: Tables, a: AccountId, h: Header, slots: seq<Row<string, nat>>, entries: seq<Row<MapKey, ()>>,
                        assets: seq<Row<string, ()>>)
    returns (t': Tables)
    ensures t' == ApplyLists(t, a, h, slots, entries, assets)
  {
    hide Slice, WithSlice, Patched, ListArchived, ApplyLists, Superseding, DeltaOf;
    var newSlots, pastSlots := UpdateRows(t.latestSlots, t.historicalSlots, a, h.nonce, slots, false);
    var newEntries, pastEntries := UpdateRows(t.latestEntries, t.historicalEntries, a, h.nonce, entries, true);
    var newAssets, pastAssets := UpdateRows(t.latestAssets, t.historicalAssets, a, h.nonce, assets, true);
    t' := ReplaceHeader(t, a, h);
    t' := t'.(latestSlots := newSlots, historicalSlots := pastSlots,
              latestEntries := newEntries, historicalEntries := pastEntries,
              latestAssets := newAssets, historicalAssets := pastAssets);
    DeltaTables(t, a, h, slots, entries, assets, t');
  }

  method WriteFullRows(t: Tables, a: AccountId, h: Header, slots: seq<Row<string, nat>>,
                       entries: seq<Row<MapKey, ()>>, assets: seq<Row<string, ()>>)
    returns (t': Tables)
    ensures t' == ApplyFull(t, a, Snapshot(h, Contents(ContentsOf(slots), ContentsOf(entries), ContentsOf(assets))))
  {
    hide Slice, WithSlice, FullArchived, ApplyFull, Superseding, ContentsOf;
    var newSlots, pastSlots := ArchiveAndReplace(t.latestSlots, t.historicalSlots, a, h.nonce, slots);
    var newEntries, pastEntries := ArchiveAndReplace(t.latestEntries, t.historicalEntries, a, h.nonce, entries);
    var newAssets, pastAssets := ArchiveAndReplace(t.latestAssets, t.historicalAssets, a, h.nonce, assets);
    t' := ReplaceHeader(t, a, h);
    t' := t'.(latestSlots := newSlots, historicalSlots := pastSlots, latestEntries := newEntries,
              historicalEntries := pastEntries,
              latestAssets := newAssets, historicalAssets := pastAssets);
    FullTables(t, a, Snapshot(h, Contents(ContentsOf(slots), ContentsOf(entries), ContentsOf(assets))), t');
  }

  /** First insertion: code, contents and header, nothing archived. */
  method WriteNewRows(t: Tables, a: AccountId, h: Header, slots: seq<Row<string, nat>>,
                      entries: seq<Row<MapKey, ()>>, assets: seq<Row<string, ()>>,
                      code: string)
    returns (t': Tables)
    ensures t' == Insert(t, a, Snapshot(h, Contents(ContentsOf(slots), ContentsOf(entries), ContentsOf(assets))), code)
  {
    hide Slice, WithSlice, ContentsOf, Insert;
    var newSlots := Upsert(t.latestSlots, a, slots);
    var newEntries := Upsert(t.latestEntries, a, entries);
    var newAssets := Upsert(t.latestAssets, a, assets);
    t' := t.(codes := t.codes[h.codeRoot := code], latestSlots := newSlots, latestEntries := newEntries,
             latestAssets := newAssets,
             latestHeaders := t.latestHeaders[a := h]);
    InsertTables(t, a, Snapshot(h, Contents(ContentsOf(slots), ContentsOf(entries), ContentsOf(assets))), code, t');
  }

  // ---------------------------------------------------------------- the database

  /** The tables as fields; a method reads them, works on the rows and commits the result, as one transaction does. */
  class Database {
    var latestSlots: map<(AccountId, string), Cell<nat>>
    var historicalSlots: map<(AccountId, (nat, string)), Archive<nat>>
    var latestEntries: map<(AccountId, MapKey), Cell<()>>
    var historicalEntries: map<(AccountId, (nat, MapKey)), Archive<()>>
    var latestAssets: map<(AccountId, string), Cell<()>>
    var historicalAssets: map<(AccountId, (nat, string)), Archive<()>>
    var latestHeaders: map<AccountId, Header>
    var historicalHeaders: map<Commitment, HeaderRow>
    var codes: map<CodeRoot, string>
    var foreignCodes: map<AccountId, CodeRoot>

    function State(): Tables
      reads this
    {
      Tables(latestSlots, historicalSlots, latestEntries, historicalEntries, latestAssets, historicalAssets,
             latestHeaders, historicalHeaders, codes, foreignCodes)
    }

    /** A newly opened database. */
    constructor ()
      ensures State() == EmptyTables
    {
      latestSlots, historicalSlots, latestEntries, historicalEntries := map[], map[], map[], map[];
      latestAssets, historicalAssets, latestHeaders := map[], map[], map[];
      historicalHeaders, codes, foreignCodes := map[], map[], map[];
    }

    method Commit(t: Tables)
      modifies this
      ensures State() == t
    {
      latestSlots, historicalSlots, latestEntries, historicalEntries := t.latestSlots, t.historicalSlots,
          t.latestEntries, t.historicalEntries;
      latestAssets, historicalAssets, latestHeaders := t.latestAssets, t.historicalAssets, t.latestHeaders;
      historicalHeaders, codes, foreignCodes := t.historicalHeaders, t.codes, t.foreignCodes;
    }

    /** Whatever the lists; and when no list repeats a key, the delta that they stand for. */
    method ApplyTransactionDelta(a: AccountId, nonce: nat, updatedSlots: seq<Row<string, nat>>,
                                 changedEntries: seq<Row<MapKey, ()>>, changedAssets: seq<Row<string, ()>>,
                                 codeRoot: CodeRoot, storageRoot: string, vaultRoot: string,
                                 committed: bool, commitment: Commitment)
      modifies this
      ensures var h := Header(codeRoot, storageRoot, vaultRoot, nonce, committed, None, commitment, false);
              && State() == ApplyLists(old(State()), a, h, updatedSlots, changedEntries, changedAssets)
              && (DistinctKeys(updatedSlots) && DistinctKeys(changedEntries) && DistinctKeys(changedAssets) ==>
                    State() == ApplyDelta(old(State()), a,
                      Delta(h, DeltaOf(updatedSlots, false), DeltaOf(changedEntries, true),
                            DeltaOf(changedAssets, true))))
    {
      hide ApplyLists, ApplyDelta, DistinctKeys, DeltaOf;
      var h := Header(codeRoot, storageRoot, vaultRoot, nonce, committed, None, commitment, false);
      ghost var before := State();
      var t := WriteDeltaRows(State(), a, h, updatedSlots, changedEntries, changedAssets);
      Commit(t);
      if DistinctKeys(updatedSlots) && DistinctKeys(changedEntries) && DistinctKeys(changedAssets) {
        ListsAreDelta(before, a, h, updatedSlots, changedEntries, changedAssets);
      }
    }

    method ApplyFullAccountState(a: AccountId, h: Header, slots: seq<Row<string, nat>>,
                                 entries: seq<Row<MapKey, ()>>, assets: seq<Row<string, ()>>)
      modifies this
      ensures State() == ApplyFull(old(State()), a,
                Snapshot(h.(locked := false), Contents(ContentsOf(slots), ContentsOf(entries), ContentsOf(assets))))
    {
      var t := WriteFullRows(State(), a, h.(locked := false), slots, entries, assets);
      Commit(t);
    }

    method InsertAccount(a: AccountId, h: Header, slots: seq<Row<string, nat>>, entries: seq<Row<MapKey, ()>>,
                         assets: seq<Row<string, ()>>, code: string)
      modifies this
      ensures State() == Insert(old(State()), a,
                Snapshot(h.(locked := false), Contents(ContentsOf(slots), ContentsOf(entries), ContentsOf(assets))),
                    code)
    {
      var t := WriteNewRows(State(), a, h.(locked := false), slots, entries, assets, code);
      Commit(t);
    }

    /**
     * Discard the states with these commitments, in any order and however often each is listed. Where a lookup
     * has several matches, one of them is taken; where it never has, the tables are those of the undo.
     */
    method UndoAccountStates(commitments: seq<Commitment>)
      returns (ghost picks: seq<Option<(AccountId, nat)>>, ghost backs: map<AccountId, Option<Header>>)
      modifies this
      ensures |picks| == |commitments|
      ensures forall i :: 0 <= i < |picks| ==> LooksUp(old(State()), commitments[i], picks[i])
      ensures UndoneAll(old(State()), Grouped(picks), backs, State())
      ensures old(LatestDistinct(State()) && forall a :: UniqueReplacement(RowsOf(State(), a)))
              ==> State() == Undo(old(State()), Elements(commitments))
    {
      hide UndoneAll, LooksUp, Grouped, Undo, LatestDistinct, UniqueReplacement, RowsOf;
      var t;
      t, picks, backs := UndoStates(State(), commitments);
      Commit(t);
    }

    method PruneAccountHistory(a: AccountId, upTo: nat) returns (total: nat)
      modifies this
      ensures State() == Prune(old(State()), a, upTo)
      ensures var t := old(State());
              total == |OldHeaders(t, a, upTo)|
                       + |OldRows(t, a, upTo, t.historicalSlots)|
                       + |OldRows(t, a, upTo, t.historicalEntries)|
                       + |OldRows(t, a, upTo, t.historicalAssets)|
                       + |OrphanedRoots(t, a, upTo)|
    {
      hide OldHeaders, OldRows, OrphanedRoots, Prune;
      var t;
      t, total := PruneStates(State(), a, upTo);
      Commit(t);
    }

    method LockAccount(a: AccountId)
      modifies this`latestHeaders, this`historicalHeaders
      ensures State() == Lock(old(State()), a)
    {
      hide Lock, LockLatest, LockArchived;
      ghost var t := State();
      latestHeaders := LockLatest(latestHeaders, a);
      historicalHeaders := LockArchived(historicalHeaders, a);
      LockedTables(t, a);
    }

    method LockAccountOnUnexpectedCommitment(a: AccountId, digest: Commitment)
      modifies this`latestHeaders, this`historicalHeaders
      ensures State() == LockOnUnexpected(old(State()), a, digest)
    {
      if digest in historicalHeaders && historicalHeaders[digest].id == a {
        return;
      }
      LockAccount(a);
    }

    method UpsertForeignAccountCode(a: AccountId, code: string, codeRoot: CodeRoot)
      modifies this`codes, this`foreignCodes
      ensures State() == old(State()).(codes := old(codes)[codeRoot := code],
                                       foreignCodes := old(foreignCodes)[a := codeRoot])
    {
      codes := codes[codeRoot := code];
      foreignCodes := foreignCodes[a := codeRoot];
    }
  }

  lemma SameOwnHeaders(hh: map<Commitment, HeaderRow>, a: AccountId)
    ensures WithOwnHeaders(hh, a, OwnHeaders(hh, a)) == hh
  {
  }

  /** Replace the latest rows of one account: delete, then bulk put. */
  method Upsert<A(==, !new), K(==, !new), T>(latest: map<(A, K), Cell<T>>, a: A,
                                             rows: seq<Row<K, T>>) returns (latest': map<(A, K), Cell<T>>)
    ensures latest' == WithSlice(latest, a, ContentsOf(rows))
  {
    latest' := map p | p in latest && p.0 != a :: latest[p];
    latest' := BulkPut(latest', a, rows);
    PairExtensional(latest', WithSlice(latest, a, ContentsOf(rows)));
  }

  /** Set the lock flag of one account's latest header. */
  function LockLatest(headers: map<AccountId, Header>, a: AccountId): map<AccountId, Header> {
    map b | b in headers :: if b == a then headers[b].(locked := true) else headers[b]
  }

  /** Set the lock flag of all historical headers of one account. */
  function LockArchived(hh: map<Commitment, HeaderRow>, a: AccountId): map<Commitment, HeaderRow> {
    map c | c in hh :: if hh[c].id == a then HeaderRow(a, hh[c].old_.(header := hh[c].old_.header.(locked := true)))
        else hh[c]
  }

  lemma LockedTables(t: Tables, a: AccountId)
    ensures Lock(t, a) == t.(latestHeaders := LockLatest(t.latestHeaders, a),
                             historicalHeaders := LockArchived(t.historicalHeaders, a))
  {
    hide Slice, WithSlice, LockLatest, LockArchived, WithOwnHeaders, OwnHeaders;
    SameSlice(t.latestSlots, a);
    SameSlice(t.latestEntries, a);
    SameSlice(t.latestAssets, a);
    SameSlice(t.historicalSlots, a);
    SameSlice(t.historicalEntries, a);
    SameSlice(t.historicalAssets, a);
    LockedHeaders(t, a);
  }

  lemma LockedHeaders(t: Tables, a: AccountId)
    ensures LockArchived(t.historicalHeaders, a) == WithOwnHeaders(t.historicalHeaders, a,
                                                                   LockRows(RowsOf(t, a)).archived)
    ensures LockLatest(t.latestHeaders, a) ==
            if a in t.latestHeaders then t.latestHeaders[a := LockHeader(t.latestHeaders[a])] else t.latestHeaders - {a}
  {
    hide Slice;
  }

  lemma DeltaTables(t: Tables, a: AccountId, h: Header, slots: seq<Row<string, nat>>, entries: seq<Row<MapKey, ()>>,
                    assets: seq<Row<string, ()>>, t': Tables)
    requires t'.codes == t.codes && t'.foreignCodes == t.foreignCodes
    requires t'.latestHeaders == t.latestHeaders[a := h]
    requires t'.historicalHeaders == Superseding(t.latestHeaders, t.historicalHeaders, a, h.nonce)
    requires t'.latestSlots == WithSlice(t.latestSlots, a, Patched(Slice(t.latestSlots, a), DeltaOf(slots, false)))
    requires t'.latestEntries == WithSlice(t.latestEntries, a,
                                           Patched(Slice(t.latestEntries, a), DeltaOf(entries, true)))
    requires t'.latestAssets == WithSlice(t.latestAssets, a, Patched(Slice(t.latestAssets, a), DeltaOf(assets, true)))
    requires t'.historicalSlots == WithSlice(t.historicalSlots, a,
               ListArchived(Slice(t.historicalSlots, a), h.nonce, Slice(t.latestSlots, a), slots, false))
    requires t'.historicalEntries == WithSlice(t.historicalEntries, a,
               ListArchived(Slice(t.historicalEntries, a), h.nonce, Slice(t.latestEntries, a), entries, true))
    requires t'.historicalAssets == WithSlice(t.historicalAssets, a,
               ListArchived(Slice(t.historicalAssets, a), h.nonce, Slice(t.latestAssets, a), assets, true))
    ensures t' == ApplyLists(t, a, h, slots, entries, assets)
  {
    hide Slice, WithSlice, Patched, ListArchived, WithOwnHeaders, Supersede, Superseding, DeltaOf;
    SupersedePut(t, a, h.nonce);
  }

  lemma FullTables(t: Tables, a: AccountId, s: Snapshot, t': Tables)
    requires t'.codes == t.codes && t'.foreignCodes == t.foreignCodes
    requires t'.latestHeaders == t.latestHeaders[a := s.header]
    requires t'.historicalHeaders == Superseding(t.latestHeaders, t.historicalHeaders, a, s.header.nonce)
    requires t'.latestSlots == WithSlice(t.latestSlots, a, s.contents.slots)
    requires t'.latestEntries == WithSlice(t.latestEntries, a, s.contents.entries)
    requires t'.latestAssets == WithSlice(t.latestAssets, a, s.contents.assets)
    requires t'.historicalSlots == WithSlice(t.historicalSlots, a,
                                             FullArchived(Slice(t.historicalSlots, a), s.header.nonce,
                                                          Slice(t.latestSlots, a), s.contents.slots))
    requires t'.historicalEntries == WithSlice(t.historicalEntries, a,
                                               FullArchived(Slice(t.historicalEntries, a), s.header.nonce,
                                                            Slice(t.latestEntries, a), s.contents.entries))
    requires t'.historicalAssets == WithSlice(t.historicalAssets, a,
                                              FullArchived(Slice(t.historicalAssets, a), s.header.nonce,
                                                           Slice(t.latestAssets, a), s.contents.assets))
    ensures t' == ApplyFull(t, a, s)
  {
    hide Slice, WithSlice, FullArchived, WithOwnHeaders, Supersede, Superseding;
    SupersedePut(t, a, s.header.nonce);
  }

  lemma InsertTables(t: Tables, a: AccountId, s: Snapshot, code: string, t': Tables)
    requires t' == t.(latestSlots := WithSlice(t.latestSlots, a, s.contents.slots),
                      latestEntries := WithSlice(t.latestEntries, a, s.contents.entries),
                      latestAssets := WithSlice(t.latestAssets, a, s.contents.assets),
                      latestHeaders := t.latestHeaders[a := s.header],
                      codes := t.codes[s.header.codeRoot := code])
    ensures t' == Insert(t, a, s, code)
  {
    hide Slice, WithSlice, WithOwnHeaders, OwnHeaders;
    SameSlice(t.historicalSlots, a);
    SameSlice(t.historicalEntries, a);
    SameSlice(t.historicalAssets, a);
    SameOwnHeaders(t.historicalHeaders, a);
  }
}
