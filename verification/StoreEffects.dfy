/**
 * What each operation of the browser store leaves in each table, key by key and in the caller's terms
 * (crates/idxdb-store/src/js/accounts.js): the value stored or archived under a key, and that everything else stays.
 */
module StoreEffects {
  import opened Common
  import opened VersionedRows
  import opened AccountRows
  import opened AccountTables

  // ---------------------------------------------------------------- one component

  /** Some row of the list is about the key. */
  ghost predicate Listed<K, T>(rows: seq<Row<K, T>>, k: K) {
    exists i :: 0 <= i < |rows| && rows[i].key == k
  }

  /** The value a change stores: nothing, where an empty value is a removal. */
  ghost predicate Stored<T(!new)>(cell: Option<Cell<T>>, value: string, tag: T, emptyRemoves: bool) {
    if emptyRemoves && value == "" then cell == None else cell == Some(Cell(value, tag))
  }

  /** The old value that is archived for a key. */
  ghost predicate OldIs<T(!new)>(row: Option<Archive<T>>, current: Option<Cell<T>>, tag: T) {
    if current.None? then row == Some(Archive(None, tag)) else row == Some(Archive(Some(current.value.value), tag))
  }

  /** The rows of one owner in one component after a list of changes without repeated keys, worked off at nonce `n`. */
  ghost predicate Changed<A(!new), K(!new), T(!new)>(latest: map<(A, K), Cell<T>>,
                                                     history: map<(A, (nat, K)), Archive<T>>,
                                             latest': map<(A, K), Cell<T>>, history': map<(A, (nat, K)), Archive<T>>,
                                             a: A, n: nat, changes: seq<Row<K, T>>, emptyRemoves: bool)
  {
    && (forall i :: 0 <= i < |changes| ==>
          && Stored(Get(latest', (a, changes[i].key)), changes[i].value, changes[i].tag, emptyRemoves)
          && OldIs(Get(history', (a, (n, changes[i].key))), Get(latest, (a, changes[i].key)), changes[i].tag))
    && (forall b, k :: b != a || !Listed(changes, k) ==> Get(latest', (b, k)) == Get(latest, (b, k)))
    && (forall b, m: nat, k :: b != a || m != n || !Listed(changes, k)
                               ==> Get(history', (b, (m, k))) == Get(history, (b, (m, k))))
  }

  /** The rows of one owner in one component after they are replaced by a list at nonce `n`. */
  ghost predicate Exchanged<A(!new), K(!new), T(!new)>(latest: map<(A, K), Cell<T>>,
                                                       history: map<(A, (nat, K)), Archive<T>>,
                                               latest': map<(A, K), Cell<T>>, history': map<(A, (nat, K)), Archive<T>>,
                                               a: A, n: nat, rows: seq<Row<K, T>>)
  {
    && Refilled(latest, latest', a, rows)
    && (forall k :: (a, k) in latest ==>
          Get(history', (a, (n, k))) == Some(Archive(Some(latest[(a, k)].value), latest[(a, k)].tag)))
    && (forall i: nat :: LastChange(rows, i) && (a, rows[i].key) !in latest ==>
          Get(history', (a, (n, rows[i].key))) == Some(Archive(None, rows[i].tag)))
    && (forall b, m: nat, k :: b != a || m != n || ((a, k) !in latest && !Listed(rows, k))
                               ==> Get(history', (b, (m, k))) == Get(history, (b, (m, k))))
  }

  /** The latest rows of one owner are those of the list, the last one of each key. */
  ghost predicate Refilled<A(!new), K(!new), T(!new)>(latest: map<(A, K), Cell<T>>, latest': map<(A, K), Cell<T>>, a: A,
                                              rows: seq<Row<K, T>>)
  {
    && (forall i: nat :: LastChange(rows, i) ==>
          Get(latest', (a, rows[i].key)) == Some(Cell(rows[i].value, rows[i].tag)))
    && (forall k :: !Listed(rows, k) ==> (a, k) !in latest')
    && (forall b, k :: b != a ==> Get(latest', (b, k)) == Get(latest, (b, k)))
  }

  lemma {:induction false} DeltaOfLast<K(!new), T>(changes: seq<Row<K, T>>, emptyRemoves: bool, i: nat)
    requires LastChange(changes, i)
    ensures Get(DeltaOf(changes, emptyRemoves), changes[i].key)
            == Some(Update(if emptyRemoves && changes[i].value == "" then None
                else Some(changes[i].value), changes[i].tag))
  {
    if i < |changes| - 1 {
      DeltaOfLast(changes[..|changes| - 1], emptyRemoves, i);
    }
  }

  lemma {:induction false} ContentsOfLast<K(!new), T>(rows: seq<Row<K, T>>, i: nat)
    requires LastChange(rows, i)
    ensures Get(ContentsOf(rows), rows[i].key) == Some(Cell(rows[i].value, rows[i].tag))
  {
    if i < |rows| - 1 {
      ContentsOfLast(rows[..|rows| - 1], i);
    }
  }

  lemma {:induction false} ContentsOfListed<K(!new), T>(rows: seq<Row<K, T>>, k: K)
    ensures k in ContentsOf(rows) <==> Listed(rows, k)
  {
    if rows != [] {
      var front, last := rows[..|rows| - 1], |rows| - 1;
      ContentsOfListed(front, k);
      assert forall i :: 0 <= i < last ==> front[i] == rows[i];
      if Listed(rows, k) && rows[last].key != k {
        var i :| 0 <= i < |rows| && rows[i].key == k;
        assert front[i].key == k;
      }
    }
  }

  lemma {:induction false} LastOf<K(!new), T>(rows: seq<Row<K, T>>, k: K) returns (i: nat)
    requires Listed(rows, k)
    ensures LastChange(rows, i) && rows[i].key == k
  {
    var last := |rows| - 1;
    if rows[last].key == k {
      i := last;
    } else {
      var j :| 0 <= j < |rows| && rows[j].key == k;
      assert rows[..last][j].key == k;
      i := LastOf(rows[..last], k);
    }
  }

  lemma DistinctIsLast<K, T>(rows: seq<Row<K, T>>, i: nat)
    requires DistinctKeys(rows) && i < |rows|
    ensures LastChange(rows, i)
  {
  }

  lemma UnlistedKey<K(!new), T>(changes: seq<Row<K, T>>, emptyRemoves: bool, k: K)
    requires !Listed(changes, k)
    ensures k !in DeltaOf(changes, emptyRemoves)
  {
    DeltaOfOnly(changes, emptyRemoves, k);
  }

  lemma ListChanges<A(!new), K(!new), T(!new)>(latest: map<(A, K), Cell<T>>, history: map<(A, (nat, K)), Archive<T>>,
                                       a: A, n: nat, changes: seq<Row<K, T>>, emptyRemoves: bool)
    requires DistinctKeys(changes)
    ensures var d := DeltaOf(changes, emptyRemoves);
            Changed(latest, history,
                    WithSlice(latest, a, Patched(Slice(latest, a), d)),
                    WithSlice(history, a, ListArchived(Slice(history, a), n, Slice(latest, a), changes, emptyRemoves)),
                    a, n, changes, emptyRemoves)
  {
    hide Slice, WithSlice, Patched, ListArchived, DeltaOf, DeltaArchived, DistinctKeys;
    var d := DeltaOf(changes, emptyRemoves);
    var s, h := Slice(latest, a), Slice(history, a);
    DistinctListArchived(h, n, s, changes, emptyRemoves);
    forall i | 0 <= i < |changes|
      ensures Get(d, changes[i].key)
              == Some(Update(if emptyRemoves && changes[i].value == "" then None
                  else Some(changes[i].value), changes[i].tag))
    {
      DistinctIsLast(changes, i);
      DeltaOfLast(changes, emptyRemoves, i);
    }
    forall k | !Listed(changes, k) ensures k !in d {
      UnlistedKey(changes, emptyRemoves, k);
    }
  }

  lemma RowsExchange<A(!new), K(!new), T(!new)>(latest: map<(A, K), Cell<T>>, history: map<(A, (nat, K)), Archive<T>>,
                                        a: A, n: nat, rows: seq<Row<K, T>>)
    ensures Exchanged(latest, history,
                      WithSlice(latest, a, ContentsOf(rows)),
                      WithSlice(history, a, FullArchived(Slice(history, a), n, Slice(latest, a), ContentsOf(rows))),
                      a, n, rows)
  {
    hide Slice, WithSlice, FullArchived, ContentsOf, Listed;
    RowsRefill(latest, a, rows);
    var s, c := Slice(latest, a), ContentsOf(rows);
    forall i: nat | LastChange(rows, i) ensures Get(c, rows[i].key) == Some(Cell(rows[i].value, rows[i].tag)) {
      ContentsOfLast(rows, i);
    }
    forall k | !Listed(rows, k) ensures k !in c {
      ContentsOfListed(rows, k);
    }
    assert forall k :: (a, k) in latest <==> Get(s, k).Some?;
  }

  lemma RowsRefill<A(!new), K(!new), T(!new)>(latest: map<(A, K), Cell<T>>, a: A, rows: seq<Row<K, T>>)
    ensures Refilled(latest, WithSlice(latest, a, ContentsOf(rows)), a, rows)
  {
    hide WithSlice, ContentsOf, Listed;
    var latest', c := WithSlice(latest, a, ContentsOf(rows)), ContentsOf(rows);
    forall i: nat | LastChange(rows, i) ensures Get(latest', (a, rows[i].key))
        == Some(Cell(rows[i].value, rows[i].tag)) {
      ContentsOfLast(rows, i);
    }
    forall k | !Listed(rows, k) ensures (a, k) !in latest' {
      ContentsOfListed(rows, k);
      assert Get(latest', (a, k)) == Get(c, k);
    }
  }

  // ---------------------------------------------------------------- headers

  /** The current header goes to history under its own commitment, with the nonce that replaces it; `h` is current. */
  ghost predicate HeaderReplaced(t: Tables, t': Tables, a: AccountId, h: Header) {
    && (forall b :: Get(t'.latestHeaders, b) == if b == a then Some(h) else Get(t.latestHeaders, b))
    && (forall c ::
          Get(t'.historicalHeaders, c)
          == if a in t.latestHeaders && t.latestHeaders[a].accountCommitment == c
             then Some(HeaderRow(a, OldHeader(h.nonce, t.latestHeaders[a])))
             else Get(t.historicalHeaders, c))
  }

  lemma HeaderIsReplaced(t: Tables, t': Tables, a: AccountId, h: Header)
    requires t'.latestHeaders == t.latestHeaders[a := h]
    requires t'.historicalHeaders == WithOwnHeaders(t.historicalHeaders, a, Supersede(RowsOf(t, a), h.nonce))
    ensures HeaderReplaced(t, t', a, h)
  {
    hide Slice;
  }

  ghost predicate SameCodes(t: Tables, t': Tables) {
    t'.codes == t.codes && t'.foreignCodes == t.foreignCodes
  }

  // ---------------------------------------------------------------- writes

  /** A delta without repeated keys: every key listed is stored and its old value archived, and nothing else changes. */
  lemma DeltaEffect(t: Tables, a: AccountId, h: Header, slots: seq<Row<string, nat>>, entries: seq<Row<MapKey, ()>>,
                    assets: seq<Row<string, ()>>)
    requires DistinctKeys(slots) && DistinctKeys(entries) && DistinctKeys(assets)
    ensures var t', n := ApplyLists(t, a, h, slots, entries, assets), h.nonce;
            && Changed(t.latestSlots, t.historicalSlots, t'.latestSlots, t'.historicalSlots, a, n, slots, false)
            && Changed(t.latestEntries, t.historicalEntries, t'.latestEntries, t'.historicalEntries, a, n, entries,
                       true)
            && Changed(t.latestAssets, t.historicalAssets, t'.latestAssets, t'.historicalAssets, a, n, assets, true)
            && HeaderReplaced(t, t', a, h) && SameCodes(t, t')
  {
    hide Slice, WithSlice, Patched, ListArchived, DeltaOf, Supersede, WithOwnHeaders, OwnHeaders, Changed,
        HeaderReplaced,
         DistinctKeys;
    var t' := ApplyLists(t, a, h, slots, entries, assets);
    ListChanges(t.latestSlots, t.historicalSlots, a, h.nonce, slots, false);
    ListChanges(t.latestEntries, t.historicalEntries, a, h.nonce, entries, true);
    ListChanges(t.latestAssets, t.historicalAssets, a, h.nonce, assets, true);
    HeaderIsReplaced(t, t', a, h);
  }

  function Listing(slots: seq<Row<string, nat>>, entries: seq<Row<MapKey, ()>>,
                   assets: seq<Row<string, ()>>): Contents {
    Contents(ContentsOf(slots), ContentsOf(entries), ContentsOf(assets))
  }

  /** A full state: all old rows and new keys are archived, the latest rows are those listed, nothing else changes. */
  lemma FullEffect(t: Tables, a: AccountId, h: Header, slots: seq<Row<string, nat>>, entries: seq<Row<MapKey, ()>>,
                   assets: seq<Row<string, ()>>)
    ensures var t', n := ApplyFull(t, a, Snapshot(h, Listing(slots, entries, assets))), h.nonce;
            && Exchanged(t.latestSlots, t.historicalSlots, t'.latestSlots, t'.historicalSlots, a, n, slots)
            && Exchanged(t.latestEntries, t.historicalEntries, t'.latestEntries, t'.historicalEntries, a, n, entries)
            && Exchanged(t.latestAssets, t.historicalAssets, t'.latestAssets, t'.historicalAssets, a, n, assets)
            && HeaderReplaced(t, t', a, h) && SameCodes(t, t')
  {
    hide Slice, WithSlice, FullArchived, ContentsOf, Supersede, WithOwnHeaders, OwnHeaders, Exchanged, HeaderReplaced;
    var t' := ApplyFull(t, a, Snapshot(h, Listing(slots, entries, assets)));
    RowsExchange(t.latestSlots, t.historicalSlots, a, h.nonce, slots);
    RowsExchange(t.latestEntries, t.historicalEntries, a, h.nonce, entries);
    RowsExchange(t.latestAssets, t.historicalAssets, a, h.nonce, assets);
    HeaderIsReplaced(t, t', a, h);
  }

  /** A first insertion: the rows listed, the header and the code are stored, and nothing else changes. */
  lemma InsertEffect(t: Tables, a: AccountId, h: Header, slots: seq<Row<string, nat>>, entries: seq<Row<MapKey, ()>>,
                     assets: seq<Row<string, ()>>, code: string)
    ensures var t' := Insert(t, a, Snapshot(h, Listing(slots, entries, assets)), code);
            && Refilled(t.latestSlots, t'.latestSlots, a, slots) && t'.historicalSlots == t.historicalSlots
            && Refilled(t.latestEntries, t'.latestEntries, a, entries) && t'.historicalEntries == t.historicalEntries
            && Refilled(t.latestAssets, t'.latestAssets, a, assets) && t'.historicalAssets == t.historicalAssets
            && t'.latestHeaders == t.latestHeaders[a := h] && t'.historicalHeaders == t.historicalHeaders
            && t'.codes == t.codes[h.codeRoot := code] && t'.foreignCodes == t.foreignCodes
  {
    hide Slice, WithSlice, ContentsOf, WithOwnHeaders, OwnHeaders, Refilled;
    RowsRefill(t.latestSlots, a, slots);
    RowsRefill(t.latestEntries, a, entries);
    RowsRefill(t.latestAssets, a, assets);
    SliceSame(t.historicalSlots, a);
    SliceSame(t.historicalEntries, a);
    SliceSame(t.historicalAssets, a);
    OwnSame(t.historicalHeaders, a);
  }

  lemma SliceSame<A(!new), K(!new), V>(m: map<(A, K), V>, a: A)
    ensures WithSlice(m, a, Slice(m, a)) == m
  {
    forall p: (A, K) ensures Get(WithSlice(m, a, Slice(m, a)), p) == Get(m, p) {
      var (b, k) := p;
      assert Get(WithSlice(m, a, Slice(m, a)), (b, k)) == Get(m, (b, k));
    }
    GetExtensional(WithSlice(m, a, Slice(m, a)), m);
  }

  lemma OwnSame(hh: map<Commitment, HeaderRow>, a: AccountId)
    ensures WithOwnHeaders(hh, a, OwnHeaders(hh, a)) == hh
  {
  }

  // ---------------------------------------------------------------- lock

  /** A lock sets the flag of the account's latest and historical headers and changes nothing else at all. */
  lemma LockEffect(t: Tables, a: AccountId)
    ensures var t' := Lock(t, a);
            && (forall b ::
                  Get(t'.latestHeaders, b)
                  == if b == a && b in t.latestHeaders then Some(t.latestHeaders[b].(locked := true))
                     else Get(t.latestHeaders, b))
            && (forall c ::
                  Get(t'.historicalHeaders, c)
                  == if c in t.historicalHeaders && t.historicalHeaders[c].id == a
                     then Some(HeaderRow(a, OldHeader(t.historicalHeaders[c].old_.replacedAtNonce,
                                                      t.historicalHeaders[c].old_.header.(locked := true))))
                     else Get(t.historicalHeaders, c))
            && t' == t.(latestHeaders := t'.latestHeaders, historicalHeaders := t'.historicalHeaders)
  {
    hide Slice, WithSlice;
    SliceSame(t.latestSlots, a);
    SliceSame(t.latestEntries, a);
    SliceSame(t.latestAssets, a);
    SliceSame(t.historicalSlots, a);
    SliceSame(t.historicalEntries, a);
    SliceSame(t.historicalAssets, a);
  }

  // ---------------------------------------------------------------- prune

  /** A superseded header of the account, replaced at or below the bound. */
  ghost predicate Old(t: Tables, a: AccountId, upTo: nat, c: Commitment) {
    && c in t.historicalHeaders
    && t.historicalHeaders[c].id == a && t.historicalHeaders[c].old_.replacedAtNonce <= upTo
  }

  ghost predicate OldNonce(t: Tables, a: AccountId, upTo: nat, n: nat) {
    exists c :: Old(t, a, upTo, c) && t.historicalHeaders[c].old_.replacedAtNonce == n
  }

  /** The historical rows of the account at pruned nonces are gone, and no others. */
  ghost predicate PrunedOf<K(!new), T(!new)>(t: Tables, a: AccountId, upTo: nat,
                                             history: map<(AccountId, (nat, K)), Archive<T>>,
                                       history': map<(AccountId, (nat, K)), Archive<T>>)
  {
    forall b, n: nat, k ::
      Get(history', (b, (n, k))) == if b == a && OldNonce(t, a, upTo, n) then None else Get(history, (b, (n, k)))
  }

  /** The headers a prune removes. */
  ghost function OldHeaders(t: Tables, a: AccountId, upTo: nat): set<Commitment> {
    set c | c in t.historicalHeaders && Old(t, a, upTo, c)
  }

  /** The rows of one historical table that a prune removes. */
  ghost function OldRows<K, T>(t: Tables, a: AccountId, upTo: nat, history: map<(AccountId, (nat, K)), Archive<T>>)
    : set<(AccountId, (nat, K))>
  {
    set p | p in history && p.0 == a && OldNonce(t, a, upTo, p.1.0)
  }

  /** Some header other than the pruned ones, or a foreign account, refers to the root. */
  ghost predicate StillUsed(t: Tables, a: AccountId, upTo: nat, root: CodeRoot) {
    || (exists b :: b in t.latestHeaders && t.latestHeaders[b].codeRoot == root)
    || (exists c ::
          c in t.historicalHeaders && !Old(t, a, upTo, c) && t.historicalHeaders[c].old_.header.codeRoot == root)
    || (exists b :: b in t.foreignCodes && t.foreignCodes[b] == root)
  }

  /** A pruned header carried the root, and nothing that is left does. */
  ghost predicate Orphaned(t: Tables, a: AccountId, upTo: nat, root: CodeRoot) {
    && (exists c :: Old(t, a, upTo, c) && t.historicalHeaders[c].old_.header.codeRoot == root)
    && !StillUsed(t, a, upTo, root)
  }

  /** The code roots a prune collects. */
  ghost function OrphanedRoots(t: Tables, a: AccountId, upTo: nat): set<CodeRoot> {
    set c | c in t.historicalHeaders && Orphaned(t, a, upTo, t.historicalHeaders[c].old_.header.codeRoot)
      :: t.historicalHeaders[c].old_.header.codeRoot
  }

  lemma OldIff(t: Tables, a: AccountId, upTo: nat)
    ensures forall c :: c in PrunedCommitments(RowsOf(t, a), upTo) <==> Old(t, a, upTo, c)
    ensures forall c :: Old(t, a, upTo, c) ==> RowsOf(t, a).archived[c] == t.historicalHeaders[c].old_
    ensures forall n :: n in PrunedNonces(RowsOf(t, a), upTo) <==> OldNonce(t, a, upTo, n)
  {
    hide Slice;
    forall n ensures n in PrunedNonces(RowsOf(t, a), upTo) <==> OldNonce(t, a, upTo, n) {
      if OldNonce(t, a, upTo, n) {
        var c :| Old(t, a, upTo, c) && t.historicalHeaders[c].old_.replacedAtNonce == n;
        assert c in PrunedCommitments(RowsOf(t, a), upTo);
      }
    }
  }

  lemma PrunedComponent<K(!new), T(!new)>(t: Tables, a: AccountId, upTo: nat,
                                          history: map<(AccountId, (nat, K)), Archive<T>>)
    ensures PrunedOf(t, a, upTo, history, WithSlice(history, a,
                                                    Without(Slice(history, a), PrunedNonces(RowsOf(t, a), upTo))))
  {
    hide Slice, WithSlice, Without, RowsOf, PrunedNonces, OldNonce;
    OldIff(t, a, upTo);
  }

  lemma PrunedHeaders(t: Tables, a: AccountId, upTo: nat)
    ensures forall c ::
              Get(PruneAccount(t, a, upTo).historicalHeaders, c)
              == if Old(t, a, upTo, c) then None else Get(t.historicalHeaders, c)
    ensures PruneAccount(t, a, upTo).latestHeaders == t.latestHeaders
    ensures PruneAccount(t, a, upTo).foreignCodes == t.foreignCodes
  {
    hide Slice, WithSlice, Forget;
  }

  lemma OrphanedIff(t: Tables, a: AccountId, upTo: nat, root: CodeRoot)
    ensures root in CollectedRoots(t, a, upTo) <==> Orphaned(t, a, upTo, root)
  {
    hide RowsOf, PruneAccount, PrunedCommitments;
    OldIff(t, a, upTo);
    PrunedHeaders(t, a, upTo);
    var left := PruneAccount(t, a, upTo);
    assert forall c :: c in left.historicalHeaders <==> c in t.historicalHeaders && !Old(t, a, upTo, c) by {
      assert forall c :: c in left.historicalHeaders <==> Get(left.historicalHeaders, c).Some?;
    }
    assert forall c :: c in left.historicalHeaders ==> left.historicalHeaders[c] == t.historicalHeaders[c] by {
      assert forall c :: c in left.historicalHeaders ==> Get(left.historicalHeaders, c) == Get(t.historicalHeaders, c);
    }
    UsedIff(t, a, upTo, root, left);
  }

  lemma UsedIff(t: Tables, a: AccountId, upTo: nat, root: CodeRoot, left: Tables)
    requires left.latestHeaders == t.latestHeaders && left.foreignCodes == t.foreignCodes
    requires forall c :: c in left.historicalHeaders <==> c in t.historicalHeaders && !Old(t, a, upTo, c)
    requires forall c :: c in left.historicalHeaders ==> left.historicalHeaders[c] == t.historicalHeaders[c]
    ensures root in Referenced(left) <==> StillUsed(t, a, upTo, root)
  {
    hide Old;
  }

  /** A prune removes the old headers, their rows and the code that only they used, and nothing else. */
  lemma PruneEffect(t: Tables, a: AccountId, upTo: nat)
    ensures var t' := Prune(t, a, upTo);
            && (forall c ::
                  Get(t'.historicalHeaders, c) == if Old(t, a, upTo, c) then None else Get(t.historicalHeaders, c))
            && PrunedOf(t, a, upTo, t.historicalSlots, t'.historicalSlots)
            && PrunedOf(t, a, upTo, t.historicalEntries, t'.historicalEntries)
            && PrunedOf(t, a, upTo, t.historicalAssets, t'.historicalAssets)
            && (forall root :: Get(t'.codes, root) == if Orphaned(t, a, upTo, root) then None else Get(t.codes, root))
            && t'.latestSlots == t.latestSlots && t'.latestEntries == t.latestEntries
            && t'.latestAssets == t.latestAssets && t'.latestHeaders == t.latestHeaders
            && t'.foreignCodes == t.foreignCodes
  {
    hide Prune, RowsOf, CollectedRoots, PrunedOf, Old, Orphaned, PrunedNonces, WithSlice, Slice, Without, PruneAccount;
    PrunedHeaders(t, a, upTo);
    PruneParts(t, a, upTo);
    PrunedComponent(t, a, upTo, t.historicalSlots);
    PrunedComponent(t, a, upTo, t.historicalEntries);
    PrunedComponent(t, a, upTo, t.historicalAssets);
    forall root
      ensures Get(Prune(t, a, upTo).codes, root) == if Orphaned(t, a, upTo, root) then None else Get(t.codes, root)
    {
      OrphanedIff(t, a, upTo, root);
    }
  }

  lemma PruneParts(t: Tables, a: AccountId, upTo: nat)
    ensures var t', ns := Prune(t, a, upTo), PrunedNonces(RowsOf(t, a), upTo);
            && t'.historicalHeaders == PruneAccount(t, a, upTo).historicalHeaders
            && t'.historicalSlots == WithSlice(t.historicalSlots, a, Without(Slice(t.historicalSlots, a), ns))
            && t'.historicalEntries == WithSlice(t.historicalEntries, a, Without(Slice(t.historicalEntries, a), ns))
            && t'.historicalAssets == WithSlice(t.historicalAssets, a, Without(Slice(t.historicalAssets, a), ns))
            && t'.codes == t.codes - CollectedRoots(t, a, upTo)
            && t'.latestSlots == t.latestSlots && t'.latestEntries == t.latestEntries
            && t'.latestAssets == t.latestAssets && t'.latestHeaders == t.latestHeaders
            && t'.foreignCodes == t.foreignCodes
  {
    hide Slice, WithSlice, Without, CollectedRoots, WithOwnHeaders, OwnHeaders, PrunedNonces;
    SliceSame(t.latestSlots, a);
    SliceSame(t.latestEntries, a);
    SliceSame(t.latestAssets, a);
  }

  // ---------------------------------------------------------------- undo

  /** `n` is the lowest of the nonces that archived a value of the key. */
  ghost predicate LowestRow<K(!new), T>(history: map<(AccountId, (nat, K)), Archive<T>>, a: AccountId, ns: set<nat>,
                                        k: K, n: nat) {
    && n in ns && (a, (n, k)) in history
    && forall m: nat :: m in ns && (a, (m, k)) in history ==> n <= m
  }

  /** The rows of one account in one component once the nonces `ns` are undone; `gone` says that no account is left. */
  ghost predicate WentBack<K(!new), T(!new)>(latest: map<(AccountId, K), Cell<T>>,
                                             history: map<(AccountId, (nat, K)), Archive<T>>,
                                       latest': map<(AccountId, K), Cell<T>>,
                                           history': map<(AccountId, (nat, K)), Archive<T>>,
                                       a: AccountId, ns: set<nat>, gone: bool)
  {
    && (forall k :: gone ==> (a, k) !in latest')
    && (forall k, n: nat :: !gone && LowestRow(history, a, ns, k, n) ==>
          Get(latest', (a, k)) == if history[(a, (n, k))].was.None? then None
                                  else Some(Cell(history[(a, (n, k))].was.value, history[(a, (n, k))].tag)))
    && (forall k :: !gone && (forall n: nat :: n in ns ==> (a, (n, k)) !in history) ==>
          Get(latest', (a, k)) == Get(latest, (a, k)))
    && (forall n: nat, k :: Get(history', (a, (n, k))) == if n in ns then None else Get(history, (a, (n, k))))
  }

  lemma GoesBack<K(!new), T(!new)>(latest: map<(AccountId, K), Cell<T>>,
                                   history: map<(AccountId, (nat, K)), Archive<T>>,
                             latest': map<(AccountId, K), Cell<T>>, history': map<(AccountId, (nat, K)), Archive<T>>,
                             a: AccountId, ns: set<nat>, gone: bool)
    requires Slice(latest', a) == if gone then map[] else Undone(Slice(latest, a), Slice(history, a), ns)
    requires Slice(history', a) == Without(Slice(history, a), ns)
    ensures WentBack(latest, history, latest', history', a, ns, gone)
  {
    hide Slice, Undone, Without;
    var s, h := Slice(latest, a), Slice(history, a);
    forall n: nat, k ensures (n, k) in h <==> (a, (n, k)) in history {
      assert Get(h, (n, k)) == Get(history, (a, (n, k)));
    }
    forall k ensures Get(latest', (a, k)) == if gone then None else Lowest(s, h, ns, k) {
      assert Get(Slice(latest', a), k) == Get(latest', (a, k));
    }
    forall k, n: nat | !gone && LowestRow(history, a, ns, k, n)
      ensures Lowest(s, h, ns, k) == RestoredCell(history[(a, (n, k))])
    {
      LowestIs(s, h, ns, k, n);
      assert Get(h, (n, k)) == Get(history, (a, (n, k)));
    }
    forall k | !gone && (forall n: nat :: n in ns ==> (a, (n, k)) !in history)
      ensures Get(latest', (a, k)) == Get(latest, (a, k))
    {
      assert Touching(h, ns, k) == {};
    }
    forall n: nat, k ensures Get(history', (a, (n, k))) == if n in ns then None else Get(history, (a, (n, k))) {
      assert Get(Slice(history', a), (n, k)) == Get(history', (a, (n, k)));
    }
  }

  lemma LowestIs<K(!new), T>(s: Current<K, T>, h: Past<K, T>, ns: set<nat>, k: K, n: nat)
    requires n in ns && (n, k) in h && forall m: nat :: m in ns && (m, k) in h ==> n <= m
    ensures Lowest(s, h, ns, k) == RestoredCell(h[(n, k)])
  {
    assert n in Touching(h, ns, k);
    assert MinOf(Touching(h, ns, k)) == n;
  }

  /**
   * Undoing the nonces `ns` of one account, back to the header `back`: every key goes to the value archived by the
   * lowest nonce that touched it, the header to `back`, and the rows and headers archived at those nonces go.
   */
  lemma UndoEffect(t: Tables, t': Tables, a: AccountId, ns: set<nat>, back: Option<Header>)
    requires RowsOf(t', a) == UndoRowsTo(RowsOf(t, a), ns, back)
    ensures WentBack(t.latestSlots, t.historicalSlots, t'.latestSlots, t'.historicalSlots, a, ns, back.None?)
    ensures WentBack(t.latestEntries, t.historicalEntries, t'.latestEntries, t'.historicalEntries, a, ns, back.None?)
    ensures WentBack(t.latestAssets, t.historicalAssets, t'.latestAssets, t'.historicalAssets, a, ns, back.None?)
    ensures Get(t'.latestHeaders, a) == back
    ensures forall c ::
              (c in t'.historicalHeaders && t'.historicalHeaders[c].id == a)
              <==> && c in t.historicalHeaders && t.historicalHeaders[c].id == a
                   && t.historicalHeaders[c].old_.replacedAtNonce !in ns
    ensures forall c :: c in t'.historicalHeaders && t'.historicalHeaders[c].id == a ==>
              t'.historicalHeaders[c] == t.historicalHeaders[c]
  {
    hide Slice, Undone, Without, WentBack;
    var r, r' := RowsOf(t, a), RowsOf(t', a);
    assert r'.contents.slots == Slice(t'.latestSlots, a) && r'.history.slots == Slice(t'.historicalSlots, a);
    GoesBack(t.latestSlots, t.historicalSlots, t'.latestSlots, t'.historicalSlots, a, ns, back.None?);
    GoesBack(t.latestEntries, t.historicalEntries, t'.latestEntries, t'.historicalEntries, a, ns, back.None?);
    GoesBack(t.latestAssets, t.historicalAssets, t'.latestAssets, t'.historicalAssets, a, ns, back.None?);
    OwnRows(t, t', a, ns);
  }

  lemma OwnRows(t: Tables, t': Tables, a: AccountId, ns: set<nat>)
    requires OwnHeaders(t'.historicalHeaders, a)
             == map c | c in OwnHeaders(t.historicalHeaders, a)
                        && OwnHeaders(t.historicalHeaders, a)[c].replacedAtNonce !in ns
                  :: OwnHeaders(t.historicalHeaders, a)[c]
    ensures forall c ::
              (c in t'.historicalHeaders && t'.historicalHeaders[c].id == a)
              <==> && c in t.historicalHeaders && t.historicalHeaders[c].id == a
                   && t.historicalHeaders[c].old_.replacedAtNonce !in ns
    ensures forall c :: c in t'.historicalHeaders && t'.historicalHeaders[c].id == a ==>
              t'.historicalHeaders[c] == t.historicalHeaders[c]
  {
    var own, own' := OwnHeaders(t.historicalHeaders, a), OwnHeaders(t'.historicalHeaders, a);
    assert forall c :: c in own' <==> c in t'.historicalHeaders && t'.historicalHeaders[c].id == a;
    assert forall c :: c in own <==> c in t.historicalHeaders && t.historicalHeaders[c].id == a;
    assert forall c :: c in own' ==> own'[c] == own[c];
  }
}
