/**
 * The account tables of the browser store and what each operation leaves in them
 * (crates/idxdb-store/src/js/accounts.js; table keys in crates/idxdb-store/src/js/schema.js).
 */
module AccountTables {
  import opened Common
  import opened VersionedRows
  import opened AccountRows

  type AccountId = string

  datatype HeaderRow = HeaderRow(id: AccountId, old_: OldHeader)

  /** Historical headers are keyed by commitment alone; every other account table is keyed by account first. */
  datatype Tables = Tables(
    latestSlots: map<(AccountId, string), Cell<nat>>,
    historicalSlots: map<(AccountId, (nat, string)), Archive<nat>>,
    latestEntries: map<(AccountId, MapKey), Cell<()>>,
    historicalEntries: map<(AccountId, (nat, MapKey)), Archive<()>>,
    latestAssets: map<(AccountId, string), Cell<()>>,
    historicalAssets: map<(AccountId, (nat, string)), Archive<()>>,
    latestHeaders: map<AccountId, Header>,
    historicalHeaders: map<Commitment, HeaderRow>,
    codes: map<CodeRoot, string>,
    foreignCodes: map<AccountId, CodeRoot>)

  const EmptyTables := Tables(map[], map[], map[], map[], map[], map[], map[], map[], map[], map[])

  // ---------------------------------------------------------------- the rows of one account

  function OwnHeaders(hh: map<Commitment, HeaderRow>, a: AccountId): map<Commitment, OldHeader> {
    map c | c in hh && hh[c].id == a :: hh[c].old_
  }

  function WithOwnHeaders(hh: map<Commitment, HeaderRow>, a: AccountId,
                          own: map<Commitment, OldHeader>): map<Commitment, HeaderRow> {
    map c | c in hh.Keys + own.Keys && (c in own || hh[c].id != a) :: if c in own then HeaderRow(a, own[c]) else hh[c]
  }

  function RowsOf(t: Tables, a: AccountId): Rows {
    Rows(Get(t.latestHeaders, a),
         Contents(Slice(t.latestSlots, a), Slice(t.latestEntries, a), Slice(t.latestAssets, a)),
         History(Slice(t.historicalSlots, a), Slice(t.historicalEntries, a), Slice(t.historicalAssets, a)),
         OwnHeaders(t.historicalHeaders, a))
  }

  function WithRows(t: Tables, a: AccountId, r: Rows): Tables {
    t.(latestSlots := WithSlice(t.latestSlots, a, r.contents.slots),
       latestEntries := WithSlice(t.latestEntries, a, r.contents.entries),
       latestAssets := WithSlice(t.latestAssets, a, r.contents.assets),
       historicalSlots := WithSlice(t.historicalSlots, a, r.history.slots),
       historicalEntries := WithSlice(t.historicalEntries, a, r.history.entries),
       historicalAssets := WithSlice(t.historicalAssets, a, r.history.assets),
       latestHeaders := if r.header.Some? then t.latestHeaders[a := r.header.value] else t.latestHeaders - {a},
       historicalHeaders := WithOwnHeaders(t.historicalHeaders, a, r.archived))
  }

  /** Writing these headers overwrites no row of another account. */
  ghost predicate Fits(t: Tables, a: AccountId, r: Rows) {
    forall c :: c in r.archived && c in t.historicalHeaders ==> t.historicalHeaders[c].id == a
  }

  /** Writing one account's rows gives that account those rows and leaves every other account its own. */
  lemma RowsOfWith(t: Tables, a: AccountId, r: Rows, b: AccountId)
    requires Fits(t, a, r)
    ensures RowsOf(WithRows(t, a, r), b) == if b == a then r else RowsOf(t, b)
  {
    hide Slice, WithSlice;
    SliceOfWith(t.latestSlots, a, r.contents.slots, b);
    SliceOfWith(t.latestEntries, a, r.contents.entries, b);
    SliceOfWith(t.latestAssets, a, r.contents.assets, b);
    SliceOfWith(t.historicalSlots, a, r.history.slots, b);
    SliceOfWith(t.historicalEntries, a, r.history.entries, b);
    SliceOfWith(t.historicalAssets, a, r.history.assets, b);
    OwnOfWith(t.historicalHeaders, a, r.archived, b);
  }

  lemma OwnOfWith(hh: map<Commitment, HeaderRow>, a: AccountId, own: map<Commitment, OldHeader>, b: AccountId)
    requires forall c :: c in own && c in hh ==> hh[c].id == a
    ensures OwnHeaders(WithOwnHeaders(hh, a, own), b) == if b == a then own else OwnHeaders(hh, b)
  {
  }

  /** The tables hold nothing but the rows of their accounts. */
  lemma RowsDetermine(t: Tables, t': Tables)
    requires forall a :: RowsOf(t, a) == RowsOf(t', a)
    requires t.codes == t'.codes && t.foreignCodes == t'.foreignCodes
    ensures t == t'
  {
    hide Slice;
    forall a
      ensures Slice(t.latestSlots, a) == Slice(t'.latestSlots, a)
              && Slice(t.historicalSlots, a) == Slice(t'.historicalSlots, a)
      ensures Slice(t.latestEntries, a) == Slice(t'.latestEntries, a)
              && Slice(t.historicalEntries, a) == Slice(t'.historicalEntries, a)
      ensures Slice(t.latestAssets, a) == Slice(t'.latestAssets, a)
              && Slice(t.historicalAssets, a) == Slice(t'.historicalAssets, a)
      ensures Get(t.latestHeaders, a) == Get(t'.latestHeaders, a)
      ensures OwnHeaders(t.historicalHeaders, a) == OwnHeaders(t'.historicalHeaders, a)
    {
      assert RowsOf(t, a) == RowsOf(t', a);
    }
    SlicesDetermine(t.latestSlots, t'.latestSlots);
    SlicesDetermine(t.historicalSlots, t'.historicalSlots);
    SlicesDetermine(t.latestEntries, t'.latestEntries);
    SlicesDetermine(t.historicalEntries, t'.historicalEntries);
    SlicesDetermine(t.latestAssets, t'.latestAssets);
    SlicesDetermine(t.historicalAssets, t'.historicalAssets);
    GetExtensional(t.latestHeaders, t'.latestHeaders);
    OwnersDetermine(t.historicalHeaders, t'.historicalHeaders);
  }

  lemma OwnersDetermine(hh: map<Commitment, HeaderRow>, hh': map<Commitment, HeaderRow>)
    requires forall a :: OwnHeaders(hh, a) == OwnHeaders(hh', a)
    ensures hh == hh'
  {
    forall c | c in hh ensures c in hh' && hh'[c] == hh[c] {
      assert c in OwnHeaders(hh, hh[c].id);
      assert c in OwnHeaders(hh', hh[c].id);
      assert OwnHeaders(hh, hh[c].id)[c] == OwnHeaders(hh', hh[c].id)[c];
    }
    forall c | c in hh' ensures c in hh {
      assert c in OwnHeaders(hh', hh'[c].id);
      assert c in OwnHeaders(hh, hh'[c].id);
    }
  }

  // ---------------------------------------------------------------- operations on the tables

  function ApplyDelta(t: Tables, a: AccountId, d: Delta): Tables {
    WithRows(t, a, WriteDelta(RowsOf(t, a), d))
  }

  /** A delta handed over as lists of changes, worked off one by one; an empty entry or asset is a removal. */
  function ApplyLists(t: Tables, a: AccountId, h: Header, slots: seq<Row<string, nat>>, entries: seq<Row<MapKey, ()>>,
                      assets: seq<Row<string, ()>>): Tables
  {
    var r, n := RowsOf(t, a), h.nonce;
    WithRows(t, a, Rows(
      Some(h),
      Patch(r.contents, Delta(h, DeltaOf(slots, false), DeltaOf(entries, true), DeltaOf(assets, true))),
      History(ListArchived(r.history.slots, n, r.contents.slots, slots, false),
              ListArchived(r.history.entries, n, r.contents.entries, entries, true),
              ListArchived(r.history.assets, n, r.contents.assets, assets, true)),
      Supersede(r, n)))
  }

  /** Lists without repeated keys are the delta they stand for. */
  lemma ListsAreDelta(t: Tables, a: AccountId, h: Header, slots: seq<Row<string, nat>>, entries: seq<Row<MapKey, ()>>,
                      assets: seq<Row<string, ()>>)
    requires DistinctKeys(slots) && DistinctKeys(entries) && DistinctKeys(assets)
    ensures ApplyLists(t, a, h, slots, entries, assets)
            == ApplyDelta(t, a, Delta(h, DeltaOf(slots, false), DeltaOf(entries, true), DeltaOf(assets, true)))
  {
    hide RowsOf, WithRows, DeltaOf, ListArchived, DeltaArchived, Patch, Supersede, DistinctKeys;
    var r := RowsOf(t, a);
    DistinctListArchived(r.history.slots, h.nonce, r.contents.slots, slots, false);
    DistinctListArchived(r.history.entries, h.nonce, r.contents.entries, entries, true);
    DistinctListArchived(r.history.assets, h.nonce, r.contents.assets, assets, true);
  }

  function ApplyFull(t: Tables, a: AccountId, s: Snapshot): Tables {
    WithRows(t, a, WriteFull(RowsOf(t, a), s))
  }

  /** First insertion of an account, with its code. */
  function Insert(t: Tables, a: AccountId, s: Snapshot, code: string): Tables {
    WithRows(t, a, WriteNew(RowsOf(t, a), s)).(codes := t.codes[s.header.codeRoot := code])
  }

  function Lock(t: Tables, a: AccountId): Tables {
    WithRows(t, a, LockRows(RowsOf(t, a)))
  }

  /** A mismatched digest locks the account unless it is a historical commitment of that account. */
  function LockOnUnexpected(t: Tables, a: AccountId, digest: Commitment): Tables {
    if digest in t.historicalHeaders && t.historicalHeaders[digest].id == a then t else Lock(t, a)
  }

  /** Code roots that a latest header, a historical header or a foreign account refers to. */
  function Referenced(t: Tables): set<CodeRoot> {
    (set a | a in t.latestHeaders :: t.latestHeaders[a].codeRoot)
    + (set c | c in t.historicalHeaders :: t.historicalHeaders[c].old_.header.codeRoot)
    + (set a | a in t.foreignCodes :: t.foreignCodes[a])
  }

  function PruneAccount(t: Tables, a: AccountId, upTo: nat): Tables {
    WithRows(t, a, PruneRows(RowsOf(t, a), upTo))
  }

  /** The roots a prune collects: carried by a pruned header and referenced by nothing that is left. */
  function CollectedRoots(t: Tables, a: AccountId, upTo: nat): set<CodeRoot> {
    (set c | c in PrunedCommitments(RowsOf(t, a), upTo) :: RowsOf(t, a).archived[c].header.codeRoot)
    - Referenced(PruneAccount(t, a, upTo))
  }

  function Prune(t: Tables, a: AccountId, upTo: nat): Tables {
    PruneAccount(t, a, upTo).(codes := t.codes - CollectedRoots(t, a, upTo))
  }

  ghost predicate IsLatest(t: Tables, c: Commitment) {
    exists a :: a in t.latestHeaders && t.latestHeaders[a].accountCommitment == c
  }

  /** The nonces of account `a` that the discarded commitments resolve to; latest headers are looked up first. */
  ghost function DiscardedOf(t: Tables, cs: set<Commitment>, a: AccountId): set<nat> {
    (if a in t.latestHeaders && t.latestHeaders[a].accountCommitment in cs then {t.latestHeaders[a].nonce} else {})
    + set c | c in cs && c in t.historicalHeaders && t.historicalHeaders[c].id == a && !IsLatest(t, c)
        :: t.historicalHeaders[c].old_.header.nonce
  }

  /** The discarded nonces of every account that has any. */
  ghost function Discarded(t: Tables, cs: set<Commitment>): (d: map<AccountId, set<nat>>)
    ensures forall a :: if DiscardedOf(t, cs, a) == {} then a !in d else a in d && d[a] == DiscardedOf(t, cs, a)
  {
    var ids := t.latestHeaders.Keys + set c | c in t.historicalHeaders :: t.historicalHeaders[c].id;
    assert forall a :: DiscardedOf(t, cs, a) != {} ==> a in ids by {
      forall a | DiscardedOf(t, cs, a) != {} ensures a in ids {
        var n :| n in DiscardedOf(t, cs, a);
        if a !in t.latestHeaders {
          var c :| c in cs && c in t.historicalHeaders && t.historicalHeaders[c].id == a;
        }
      }
    }
    map a | a in ids && DiscardedOf(t, cs, a) != {} :: DiscardedOf(t, cs, a)
  }

  /** Undo the discarded nonces of the accounts `ids`, one account after the other. */
  ghost function UndoAccounts(t: Tables, d: map<AccountId, set<nat>>, ids: set<AccountId>): Tables
    requires forall a :: a in ids ==> a in d && d[a] != {}
  {
    if ids == {} then t
    else
      var a :| a in ids;
      WithRows(UndoAccounts(t, d, ids - {a}), a, UndoRows(RowsOf(t, a), d[a]))
  }

  /** The tables after the states with commitments `cs` are discarded. */
  ghost function Undo(t: Tables, cs: set<Commitment>): Tables {
    var d := Discarded(t, cs);
    UndoAccounts(t, d, d.Keys)
  }

  /** Every historical header of `t'` is one of `t`, and nothing but account rows changed. */
  ghost predicate NoNewHeaders(t: Tables, t': Tables) {
    && (forall c :: c in t'.historicalHeaders ==> Get(t.historicalHeaders, c) == Get(t'.historicalHeaders, c))
    && t'.codes == t.codes && t'.foreignCodes == t.foreignCodes
  }

  lemma UndoOneAccount(t: Tables, t': Tables, a: AccountId, ns: set<nat>, back: Option<Header>, b: AccountId)
    requires NoNewHeaders(t, t')
    ensures var t'' := WithRows(t', a, UndoRowsTo(RowsOf(t, a), ns, back));
            && RowsOf(t'', b) == (if b == a then UndoRowsTo(RowsOf(t, a), ns, back) else RowsOf(t', b))
            && NoNewHeaders(t, t'')
  {
    hide RowsOf, UndoRowsTo, WithSlice;
    UndoKeepsHeaders(t, a, ns, back);
    RowsOfWith(t', a, UndoRowsTo(RowsOf(t, a), ns, back), b);
  }

  /** Undoing several accounts gives each its own undo, whatever the order, and leaves the others alone. */
  lemma {:induction false} RowsOfUndoAccounts(t: Tables, d: map<AccountId, set<nat>>, ids: set<AccountId>, b: AccountId)
    requires forall a :: a in ids ==> a in d && d[a] != {}
    ensures RowsOf(UndoAccounts(t, d, ids), b) == if b in ids then UndoRows(RowsOf(t, b), d[b]) else RowsOf(t, b)
    ensures NoNewHeaders(t, UndoAccounts(t, d, ids))
    decreases ids
  {
    hide RowsOf, UndoRowsTo, WithRows, NoNewHeaders, PreviousHeader;
    if ids == {} {
      NoNewHeadersSame(t);
    } else {
      var a :| a in ids && UndoAccounts(t, d, ids) == WithRows(UndoAccounts(t, d, ids - {a}), a,
                                                               UndoRows(RowsOf(t, a), d[a]));
      RowsOfUndoAccounts(t, d, ids - {a}, b);
      assert UndoRows(RowsOf(t, a), d[a]) == UndoRowsTo(RowsOf(t, a), d[a], PreviousHeader(RowsOf(t, a), MinOf(d[a])));
      UndoOneAccount(t, UndoAccounts(t, d, ids - {a}), a, d[a], PreviousHeader(RowsOf(t, a), MinOf(d[a])), b);
    }
  }

  lemma NoNewHeadersSame(t: Tables)
    ensures NoNewHeaders(t, t)
  {
  }

  lemma UndoKeepsHeaders(t: Tables, a: AccountId, ns: set<nat>, back: Option<Header>)
    ensures var own := UndoRowsTo(RowsOf(t, a), ns, back).archived;
            forall c :: c in own ==> c in t.historicalHeaders && t.historicalHeaders[c] == HeaderRow(a, own[c])
  {
    hide UndoContents, Forget;
  }

  lemma RowsOfUndo(t: Tables, cs: set<Commitment>, b: AccountId)
    ensures RowsOf(Undo(t, cs), b) ==
            if DiscardedOf(t, cs, b) == {} then RowsOf(t, b) else UndoRows(RowsOf(t, b), DiscardedOf(t, cs, b))
    ensures Undo(t, cs).codes == t.codes && Undo(t, cs).foreignCodes == t.foreignCodes
  {
    hide RowsOf, UndoRows, DiscardedOf;
    RowsOfUndoAccounts(t, Discarded(t, cs), Discarded(t, cs).Keys, b);
  }
}
