/**
 * From a transaction's vault delta to the asset table: `compute_vault_delta` and the change list of
 * `apply_transaction_delta` (crates/idxdb-store/src/account/utils.rs), then the delta loop of the store.
 * The largest fungible amount is a constant of the protocol crate and a parameter here.
 */
module VaultDelta {
  import opened Common
  import opened VersionedRows

  datatype VaultKey = FungibleKey(faucet: string) | NonFungibleKey(nft: string)

  datatype Asset = Fungible(faucet: string, amount: nat) | NonFungible(nft: string)

  datatype Action = Add | Remove

  datatype VaultError = AmountTooLarge | SumTooLarge | NotEnough

  /** Signed amounts per faucet and one action per non-fungible asset, each in iteration order. */
  datatype Delta = Delta(fungible: seq<(string, int)>, nonFungible: seq<(string, Action)>)

  type Vault = map<VaultKey, Asset>

  function KeyOf(asset: Asset): VaultKey {
    match asset
    case Fungible(faucet, _) => FungibleKey(faucet)
    case NonFungible(nft) => NonFungibleKey(nft)
  }

  /** Both halves of the delta come from ordered maps, so no key occurs twice. */
  ghost predicate DistinctDelta(d: Delta) {
    && (forall i, j :: 0 <= i < j < |d.fungible| ==> d.fungible[i].0 != d.fungible[j].0)
    && (forall i, j :: 0 <= i < j < |d.nonFungible| ==> d.nonFungible[i].0 != d.nonFungible[j].0)
  }

  function Abs(x: int): nat { if x < 0 then -x else x }

  /** One fungible entry: the new amount, from the amount held (if any) and the signed change. */
  function NewAmount(held: Option<nat>, change: int, maxAmount: nat): Result<nat, VaultError> {
    if Abs(change) > maxAmount then Err(AmountTooLarge)
    else match held
      case Some(x) =>
        if change >= 0 then
          if x + change > maxAmount then Err(SumTooLarge) else Ok(x + change)
        else
          if x < -change then Err(NotEnough) else Ok(x + change)
      case None => Ok(Abs(change))
  }

  // ---------------------------------------------------------------- what a vault holds

  /** Assets sit under their own key and no zero balance is stored. */
  ghost predicate ValidVault(v: Vault) {
    forall k :: k in v ==> KeyOf(v[k]) == k && (v[k].Fungible? ==> v[k].amount > 0)
  }

  function Held(v: Vault, faucet: string): Option<nat> {
    if FungibleKey(faucet) in v && v[FungibleKey(faucet)].Fungible? then Some(v[FungibleKey(faucet)].amount) else None
  }

  function Balance(v: Vault, faucet: string): nat {
    if Held(v, faucet).Some? then Held(v, faucet).value else 0
  }

  function ChangeOf(d: seq<(string, int)>, faucet: string): int {
    if d == [] then 0
    else if d[|d| - 1].0 == faucet then d[|d| - 1].1
    else ChangeOf(d[..|d| - 1], faucet)
  }

  lemma {:induction false} ChangeOfNone(d: seq<(string, int)>, faucet: string)
    requires forall i :: 0 <= i < |d| ==> d[i].0 != faucet
    ensures ChangeOf(d, faucet) == 0
  {
    if d != [] { ChangeOfNone(d[..|d| - 1], faucet); }
  }

  /** The old assets the client loads: the vault's own, and all of those the fungible delta touches. */
  ghost predicate Covers(assets: seq<Asset>, v: Vault, d: Delta) {
    && (forall i :: 0 <= i < |assets| ==> Get(v, KeyOf(assets[i])) == Some(assets[i]))
    && (forall i ::
          0 <= i < |d.fungible| && FungibleKey(d.fungible[i].0) in v ==> v[FungibleKey(d.fungible[i].0)] in assets)
  }

  // ---------------------------------------------------------------- compute_vault_delta

  /** A fungible balance that reached zero is removed, any other is stored. */
  function Settled(faucet: string, amount: nat): Option<Asset> {
    if amount > 0 then Some(Fungible(faucet, amount)) else None
  }

  ghost predicate FungibleOk(v: Vault, d: Delta, maxAmount: nat, i: int)
    requires 0 <= i < |d.fungible|
  {
    NewAmount(Held(v, d.fungible[i].0), d.fungible[i].1, maxAmount).Ok?
  }

  /**
   * Entry `i` can be applied: its change is within the largest amount, and where the vault holds the faucet, the sum
   * is, too, and is not negative.
   */
  ghost predicate EntryFits(v: Vault, d: Delta, maxAmount: nat, i: int)
    requires 0 <= i < |d.fungible|
  {
    var k, c := FungibleKey(d.fungible[i].0), d.fungible[i].1;
    && c <= maxAmount && -c <= maxAmount
    && (k in v && v[k].Fungible? ==> if c >= 0 then v[k].amount + c <= maxAmount else v[k].amount + c >= 0)
  }

  /** The error for a change that cannot be applied. */
  function WhyNot(c: int, maxAmount: nat): VaultError {
    if c > maxAmount || -c > maxAmount then AmountTooLarge else if c >= 0 then SumTooLarge else NotEnough
  }

  lemma FitsIff(v: Vault, d: Delta, maxAmount: nat, i: int)
    requires 0 <= i < |d.fungible|
    ensures FungibleOk(v, d, maxAmount, i) <==> EntryFits(v, d, maxAmount, i)
    ensures var amount := NewAmount(Held(v, d.fungible[i].0), d.fungible[i].1, maxAmount);
            && (amount.Ok? <==> EntryFits(v, d, maxAmount, i))
            && (amount.Err? ==> amount.error == WhyNot(d.fungible[i].1, maxAmount))
  {
  }

  /** `changes` says, for exactly the keys among the first `m` fungible and `n` other entries, what each becomes. */
  ghost predicate Changes(v: Vault, d: Delta, maxAmount: nat, m: nat, n: nat, changes: map<VaultKey, Option<Asset>>)
    requires m <= |d.fungible| && n <= |d.nonFungible|
  {
    && (forall i :: 0 <= i < m ==>
          && FungibleOk(v, d, maxAmount, i)
          && Get(changes, FungibleKey(d.fungible[i].0)) ==
             Some(Settled(d.fungible[i].0, NewAmount(Held(v, d.fungible[i].0), d.fungible[i].1, maxAmount).value)))
    && (forall i :: 0 <= i < n ==>
          Get(changes, NonFungibleKey(d.nonFungible[i].0)) ==
          Some(if d.nonFungible[i].1 == Add then Some(NonFungible(d.nonFungible[i].0)) else None))
    && (forall k :: k in changes ==>
          if k.FungibleKey? then exists i :: 0 <= i < m && d.fungible[i].0 == k.faucet
          else exists i :: 0 <= i < n && d.nonFungible[i].0 == k.nft)
  }

  /** What the vault becomes under a list of updated assets and a list of removed keys. */
  ghost predicate Outcome(updated: seq<Asset>, removed: seq<VaultKey>, changes: map<VaultKey, Option<Asset>>) {
    && (forall i :: 0 <= i < |updated| ==> Get(changes, KeyOf(updated[i])) == Some(Some(updated[i])))
    && (forall i :: 0 <= i < |removed| ==> Get(changes, removed[i]) == Some(None))
    && (forall k :: k in changes && changes[k].Some? ==> changes[k].value in updated && KeyOf(changes[k].value) == k)
    && (forall k :: k in changes && changes[k].None? ==> k in removed)
    && (forall i, j :: 0 <= i < j < |updated| ==> KeyOf(updated[i]) != KeyOf(updated[j]))
    && (forall i, j :: 0 <= i < j < |removed| ==> removed[i] != removed[j])
  }

  /** The fungible assets among the old ones, by faucet. */
  method FungibleMap(assets: seq<Asset>, ghost v: Vault, ghost d: Delta) returns (m: map<string, nat>)
    requires ValidVault(v) && Covers(assets, v, d)
    ensures forall f :: f in m ==> Held(v, f) == Some(m[f])
    ensures forall i :: 0 <= i < |d.fungible| && Held(v, d.fungible[i].0).Some? ==> d.fungible[i].0 in m
  {
    m := map[];
    for i := 0 to |assets|
      invariant forall f :: f in m ==> Held(v, f) == Some(m[f])
      invariant forall j :: 0 <= j < i && assets[j].Fungible? ==> assets[j].faucet in m
    {
      if assets[i].Fungible? {
        m := m[assets[i].faucet := assets[i].amount];
      }
    }
    forall i | 0 <= i < |d.fungible| && Held(v, d.fungible[i].0).Some? ensures d.fungible[i].0 in m {
      var asset := v[FungibleKey(d.fungible[i].0)];
      var j :| 0 <= j < |assets| && assets[j] == asset;
      assert Get(v, KeyOf(assets[j])) == Some(assets[j]);
      assert asset.Fungible?;
    }
  }

  /**
   * New assets and removed keys for a delta: an error is the first failing entry's, and a result says of
   * every key of the delta, once, whether it is updated or removed.
   */
  method ComputeVaultDelta(assets: seq<Asset>, d: Delta, maxAmount: nat, ghost v: Vault)
    returns (r: Result<(seq<Asset>, seq<VaultKey>), VaultError>, ghost changes: map<VaultKey, Option<Asset>>)
    requires ValidVault(v) && Covers(assets, v, d) && DistinctDelta(d)
    ensures r.Ok? <==> forall i :: 0 <= i < |d.fungible| ==> EntryFits(v, d, maxAmount, i)
    ensures r.Err? ==> exists i :: 0 <= i < |d.fungible|
                         && !EntryFits(v, d, maxAmount, i) && r.error == WhyNot(d.fungible[i].1, maxAmount)
                         && forall j :: 0 <= j < i ==> EntryFits(v, d, maxAmount, j)
    ensures r.Ok? ==>
              Changes(v, d, maxAmount, |d.fungible|, |d.nonFungible|, changes) && Outcome(r.value.0, r.value.1, changes)
  {
    hide Outcome, Changes, NewAmount, Settled, Held, DistinctDelta, EntryFits, FungibleOk;
    forall j | 0 <= j < |d.fungible|
      ensures FungibleOk(v, d, maxAmount, j) <==> EntryFits(v, d, maxAmount, j)
    {
      FitsIff(v, d, maxAmount, j);
    }
    var updated, removed := [], [];
    changes := map[];
    NoChanges(v, d, maxAmount);
    var fungibleMap := FungibleMap(assets, v, d);
    for i := 0 to |d.fungible|
      invariant Changes(v, d, maxAmount, i, 0, changes) && Outcome(updated, removed, changes)
      invariant forall j :: 0 <= j < i ==> FungibleOk(v, d, maxAmount, j)
      invariant forall f :: f in fungibleMap ==> Held(v, f) == Some(fungibleMap[f])
      invariant forall j :: i <= j < |d.fungible| && Held(v, d.fungible[j].0).Some? ==> d.fungible[j].0 in fungibleMap
    {
      var (faucet, change) := d.fungible[i];
      var held := Get(fungibleMap, faucet);
      assert held == Held(v, faucet);
      var amount := NewAmount(held, change, maxAmount);
      FitsIff(v, d, maxAmount, i);
      if amount.Err? {
        return Err(amount.error), map[];
      }
      fungibleMap := fungibleMap - {faucet};
      DistinctFaucets(d, i);
      FungibleChange(v, d, maxAmount, i, changes, amount.value);
      ghost var before := changes;
      changes := changes[FungibleKey(faucet) := Settled(faucet, amount.value)];
      if amount.value > 0 {
        SettledIs(faucet, amount.value);
        OutcomeUpdated(updated, removed, before, Fungible(faucet, amount.value));
        updated := updated + [Fungible(faucet, amount.value)];
      } else {
        SettledIs(faucet, amount.value);
        OutcomeRemoved(updated, removed, before, FungibleKey(faucet));
        removed := removed + [FungibleKey(faucet)];
      }
    }
    for i := 0 to |d.nonFungible|
      invariant Changes(v, d, maxAmount, |d.fungible|, i, changes) && Outcome(updated, removed, changes)
    {
      var (nft, action) := d.nonFungible[i];
      NonFungibleChange(v, d, maxAmount, i, changes);
      ghost var before := changes;
      match action
      case Add =>
        changes := changes[NonFungibleKey(nft) := Some(NonFungible(nft))];
        OutcomeUpdated(updated, removed, before, NonFungible(nft));
        updated := updated + [NonFungible(nft)];
      case Remove =>
        changes := changes[NonFungibleKey(nft) := None];
        OutcomeRemoved(updated, removed, before, NonFungibleKey(nft));
        removed := removed + [NonFungibleKey(nft)];
    }
    r := Ok((updated, removed));
  }

  lemma NoChanges(v: Vault, d: Delta, maxAmount: nat)
    ensures Changes(v, d, maxAmount, 0, 0, map[]) && Outcome([], [], map[])
  {
  }

  lemma DistinctFaucets(d: Delta, i: nat)
    requires DistinctDelta(d) && i < |d.fungible|
    ensures forall j :: i < j < |d.fungible| ==> d.fungible[j].0 != d.fungible[i].0
  {
  }

  lemma SettledIs(faucet: string, amount: nat)
    ensures Settled(faucet, amount) == if amount > 0 then Some(Fungible(faucet, amount)) else None
    ensures KeyOf(Fungible(faucet, amount)) == FungibleKey(faucet)
  {
  }

  lemma FungibleChange(v: Vault, d: Delta, maxAmount: nat, i: nat, changes: map<VaultKey, Option<Asset>>, amount: nat)
    requires DistinctDelta(d) && i < |d.fungible| && Changes(v, d, maxAmount, i, 0, changes)
    requires NewAmount(Held(v, d.fungible[i].0), d.fungible[i].1, maxAmount) == Ok(amount)
    ensures FungibleKey(d.fungible[i].0) !in changes
    ensures Changes(v, d, maxAmount, i + 1, 0,
                    changes[FungibleKey(d.fungible[i].0) := Settled(d.fungible[i].0, amount)])
  {
    hide NewAmount, Held, Settled;
  }

  lemma NonFungibleChange(v: Vault, d: Delta, maxAmount: nat, i: nat, changes: map<VaultKey, Option<Asset>>)
    requires DistinctDelta(d) && i < |d.nonFungible| && Changes(v, d, maxAmount, |d.fungible|, i, changes)
    ensures NonFungibleKey(d.nonFungible[i].0) !in changes
    ensures Changes(v, d, maxAmount, |d.fungible|, i + 1,
              changes[NonFungibleKey(d.nonFungible[i].0) := if d.nonFungible[i].1 == Add
                  then Some(NonFungible(d.nonFungible[i].0)) else None])
  {
    hide NewAmount, Held, Settled;
  }

  lemma OutcomeUpdated(updated: seq<Asset>, removed: seq<VaultKey>, changes: map<VaultKey, Option<Asset>>, asset: Asset)
    requires Outcome(updated, removed, changes) && KeyOf(asset) !in changes
    ensures Outcome(updated + [asset], removed, changes[KeyOf(asset) := Some(asset)])
  {
    var updated' := updated + [asset];
    assert updated'[|updated|] == asset;
    assert forall x :: x in updated ==> x in updated';
    forall i, j | 0 <= i < j < |updated'| ensures KeyOf(updated'[i]) != KeyOf(updated'[j]) {
      assert Get(changes, KeyOf(updated[i])) == Some(Some(updated[i]));
    }
  }

  lemma OutcomeRemoved(updated: seq<Asset>, removed: seq<VaultKey>, changes: map<VaultKey, Option<Asset>>, k: VaultKey)
    requires Outcome(updated, removed, changes) && k !in changes
    ensures Outcome(updated, removed + [k], changes[k := None])
  {
    var removed' := removed + [k];
    assert removed'[|removed|] == k;
    assert forall x :: x in removed ==> x in removed';
    forall i, j | 0 <= i < j < |removed'| ensures removed'[i] != removed'[j] {
      assert Get(changes, removed[i]) == Some(None);
    }
  }

  // ---------------------------------------------------------------- conservation

  /** The vault after the changes. */
  function Changed(v: Vault, changes: map<VaultKey, Option<Asset>>): (v': Vault)
    ensures forall k :: Get(v', k) == if k in changes then changes[k] else Get(v, k)
  {
    map k | k in v.Keys + changes.Keys && (k in changes ==> changes[k].Some?) :: if k in changes
        then changes[k].value else v[k]
  }

  /** A delta the protocol allows takes from a faucet only what the vault holds of it. */
  ghost predicate Applicable(v: Vault, d: Delta) {
    forall i :: 0 <= i < |d.fungible| && d.fungible[i].1 < 0 ==> Held(v, d.fungible[i].0).Some?
  }

  lemma {:induction false} ChangeOfAt(d: seq<(string, int)>, i: nat)
    requires i < |d| && forall i, j :: 0 <= i < j < |d| ==> d[i].0 != d[j].0
    ensures ChangeOf(d, d[i].0) == d[i].1
  {
    if i < |d| - 1 { ChangeOfAt(d[..|d| - 1], i); }
  }

  /** The delta takes from this faucet although the vault holds nothing of it. */
  ghost predicate TakesFromNothing(v: Vault, d: Delta, faucet: string) {
    exists i :: 0 <= i < |d.fungible| && d.fungible[i].0 == faucet && d.fungible[i].1 < 0 && Held(v, faucet).None?
  }

  /** The balance of a faucet the delta touches, and of one it does not. */
  lemma BalanceAfter(v: Vault, d: Delta, maxAmount: nat, changes: map<VaultKey, Option<Asset>>, faucet: string)
    requires ValidVault(v) && DistinctDelta(d) && Changes(v, d, maxAmount, |d.fungible|, |d.nonFungible|, changes)
    ensures if TakesFromNothing(v, d, faucet)
            then Balance(Changed(v, changes), faucet) == -ChangeOf(d.fungible, faucet) > 0
            else Balance(Changed(v, changes), faucet) == Balance(v, faucet) + ChangeOf(d.fungible, faucet)
  {
    hide Changes, Changed, DistinctDelta, Balance, Held;
    if i :| 0 <= i < |d.fungible| && d.fungible[i].0 == faucet {
      TouchedBalance(v, d, maxAmount, changes, i);
      OnlyOnce(d, i);
    } else {
      UntouchedBalance(v, d, maxAmount, changes, faucet);
    }
  }

  lemma OnlyOnce(d: Delta, i: nat)
    requires DistinctDelta(d) && i < |d.fungible|
    ensures forall j :: 0 <= j < |d.fungible| && d.fungible[j].0 == d.fungible[i].0 ==> j == i
  {
  }

  lemma TouchedBalance(v: Vault, d: Delta, maxAmount: nat, changes: map<VaultKey, Option<Asset>>, i: nat)
    requires DistinctDelta(d) && i < |d.fungible| && Changes(v, d, maxAmount, |d.fungible|, |d.nonFungible|, changes)
    ensures var f := d.fungible[i].0;
            if d.fungible[i].1 < 0 && Held(v, f).None?
            then Balance(Changed(v, changes), f) == -ChangeOf(d.fungible, f) > 0
            else Balance(Changed(v, changes), f) == Balance(v, f) + ChangeOf(d.fungible, f)
  {
    hide Changed;
    var v', k := Changed(v, changes), FungibleKey(d.fungible[i].0);
    assert Get(v', k) == if k in changes then changes[k] else Get(v, k);
    ChangeOfAt(d.fungible, i);
    assert FungibleOk(v, d, maxAmount, i);
  }

  lemma UntouchedBalance(v: Vault, d: Delta, maxAmount: nat, changes: map<VaultKey, Option<Asset>>, faucet: string)
    requires Changes(v, d, maxAmount, |d.fungible|, |d.nonFungible|, changes)
    requires forall i :: 0 <= i < |d.fungible| ==> d.fungible[i].0 != faucet
    ensures Balance(Changed(v, changes), faucet) == Balance(v, faucet) + ChangeOf(d.fungible, faucet)
  {
    hide Changed;
    var v', k := Changed(v, changes), FungibleKey(faucet);
    assert k !in changes;
    assert Get(v', k) == Get(v, k);
    ChangeOfNone(d.fungible, faucet);
  }

  /**
   * Conservation: every faucet's balance is the old one plus the signed change, exactly when the delta
   * takes nothing from a faucet the vault does not hold. In that one case the code stores the amount
   * that was to be taken.
   */
  lemma BalancesConservedIff(v: Vault, d: Delta, maxAmount: nat, changes: map<VaultKey, Option<Asset>>)
    requires ValidVault(v) && DistinctDelta(d) && Changes(v, d, maxAmount, |d.fungible|, |d.nonFungible|, changes)
    ensures (forall f :: Balance(Changed(v, changes), f) == Balance(v, f) + ChangeOf(d.fungible, f))
            <==> Applicable(v, d)
  {
    forall f
      ensures if TakesFromNothing(v, d, f)
              then Balance(Changed(v, changes), f) == -ChangeOf(d.fungible, f) > 0
              else Balance(Changed(v, changes), f) == Balance(v, f) + ChangeOf(d.fungible, f)
    {
      BalanceAfter(v, d, maxAmount, changes, f);
    }
    if !Applicable(v, d) {
      var i :| 0 <= i < |d.fungible| && d.fungible[i].1 < 0 && Held(v, d.fungible[i].0).None?;
      ChangeOfAt(d.fungible, i);
      BalanceAfter(v, d, maxAmount, changes, d.fungible[i].0);
      assert Balance(Changed(v, changes), d.fungible[i].0) != Balance(v, d.fungible[i].0)
             + ChangeOf(d.fungible, d.fungible[i].0);
    }
  }

  /** Zero balances are never stored. */
  lemma VaultStaysValid(v: Vault, d: Delta, maxAmount: nat, changes: map<VaultKey, Option<Asset>>)
    requires ValidVault(v) && Changes(v, d, maxAmount, |d.fungible|, |d.nonFungible|, changes)
    ensures ValidVault(Changed(v, changes))
  {
    hide Changed;
    var v' := Changed(v, changes);
    forall k | k in v' ensures KeyOf(v'[k]) == k && (v'[k].Fungible? ==> v'[k].amount > 0) {
      assert Get(v', k) == if k in changes then changes[k] else Get(v, k);
      if k in changes {
        if k.FungibleKey? {
          var i :| 0 <= i < |d.fungible| && d.fungible[i].0 == k.faucet;
          assert FungibleOk(v, d, maxAmount, i);
        } else {
          var i :| 0 <= i < |d.nonFungible| && d.nonFungible[i].0 == k.nft;
        }
      }
    }
  }

  /** A non-fungible asset is held afterwards exactly when it was added, or held before and not removed. */
  lemma NonFungiblesFollowActions(v: Vault, d: Delta, maxAmount: nat, changes: map<VaultKey, Option<Asset>>,
                                  nft: string)
    requires DistinctDelta(d) && Changes(v, d, maxAmount, |d.fungible|, |d.nonFungible|, changes)
    ensures NonFungibleKey(nft) in Changed(v, changes) <==>
              || (exists i :: 0 <= i < |d.nonFungible| && d.nonFungible[i] == (nft, Add))
              || (&& NonFungibleKey(nft) in v
                  && forall i :: 0 <= i < |d.nonFungible| ==> d.nonFungible[i] != (nft, Remove))
  {
    hide Changed;
    var v', k := Changed(v, changes), NonFungibleKey(nft);
    assert Get(v', k) == if k in changes then changes[k] else Get(v, k);
    if k in changes {
      var i :| 0 <= i < |d.nonFungible| && d.nonFungible[i].0 == nft;
      assert d.nonFungible[i] == (nft, Add) || d.nonFungible[i] == (nft, Remove);
    } else {
      assert forall i :: 0 <= i < |d.nonFungible| ==> Get(changes, NonFungibleKey(d.nonFungible[i].0)).Some?;
    }
  }

  // ---------------------------------------------------------------- down to the asset table

  /** How keys and assets are written as text: distinct keys differ, and no asset is the empty text. */
  ghost predicate Readable(keyText: VaultKey -> string, assetText: Asset -> string) {
    && (forall k, k' :: keyText(k) == keyText(k') ==> k == k')
    && (forall asset :: assetText(asset) != "")
  }

  /** The asset table of one account stores exactly this vault. */
  ghost predicate Stores(table: Current<string, ()>, v: Vault, keyText: VaultKey -> string,
                         assetText: Asset -> string) {
    && (forall k :: Get(table, keyText(k)) == if k in v then Some(Cell(assetText(v[k]), ())) else None)
    && (forall s :: s in table ==> exists k :: k in v && keyText(k) == s)
  }

  /** The change list: one row per updated asset, then one empty row per removed key. */
  method ChangedAssets(updated: seq<Asset>, removed: seq<VaultKey>, keyText: VaultKey -> string,
                       assetText: Asset -> string)
    returns (rows: seq<Row<string, ()>>)
    ensures |rows| == |updated| + |removed|
    ensures forall i :: 0 <= i < |updated| ==> rows[i] == Row(keyText(KeyOf(updated[i])), assetText(updated[i]), ())
    ensures forall i :: 0 <= i < |removed| ==> rows[|updated| + i] == Row(keyText(removed[i]), "", ())
  {
    rows := seq(|updated|, i requires 0 <= i < |updated| => Row(keyText(KeyOf(updated[i])), assetText(updated[i]), ()));
    for i := 0 to |removed|
      invariant |rows| == |updated| + i
      invariant forall j :: 0 <= j < |updated| ==> rows[j] == Row(keyText(KeyOf(updated[j])), assetText(updated[j]), ())
      invariant forall j :: 0 <= j < i ==> rows[|updated| + j] == Row(keyText(removed[j]), "", ())
    {
      rows := rows + [Row(keyText(removed[i]), "", ())];
    }
  }

  /** The text a change row carries for its key: the new asset, or the empty text for a removal. */
  function ChangeText(change: Option<Asset>, assetText: Asset -> string): string {
    if change.Some? then assetText(change.value) else ""
  }

  /** Row `i` of the change list is about key `keys[i]`, and the list is about exactly the changed keys, once each. */
  ghost predicate Lists(rows: seq<Row<string, ()>>, keys: seq<VaultKey>, changes: map<VaultKey, Option<Asset>>,
                        keyText: VaultKey -> string, assetText: Asset -> string)
  {
    && |rows| == |keys|
    && (forall i :: 0 <= i < |keys| ==>
          keys[i] in changes && rows[i] == Row(keyText(keys[i]), ChangeText(changes[keys[i]], assetText), ()))
    && (forall i, j :: 0 <= i < j < |keys| ==> keys[i] != keys[j])
    && (forall k :: k in changes ==> k in keys)
  }

  function KeysOf(updated: seq<Asset>, removed: seq<VaultKey>): (keys: seq<VaultKey>)
    ensures |keys| == |updated| + |removed|
    ensures forall i :: 0 <= i < |updated| ==> keys[i] == KeyOf(updated[i])
    ensures forall i :: |updated| <= i < |keys| ==> keys[i] == removed[i - |updated|]
  {
    seq(|updated|, i requires 0 <= i < |updated| => KeyOf(updated[i])) + removed
  }

  /** The change list names every changed key once. */
  lemma ChangeListComplete(rows: seq<Row<string, ()>>, updated: seq<Asset>, removed: seq<VaultKey>,
                           changes: map<VaultKey, Option<Asset>>,
                           keyText: VaultKey -> string, assetText: Asset -> string)
    requires Outcome(updated, removed, changes) && |rows| == |updated| + |removed|
    requires forall i :: 0 <= i < |updated| ==> rows[i] == Row(keyText(KeyOf(updated[i])), assetText(updated[i]), ())
    requires forall i :: 0 <= i < |removed| ==> rows[|updated| + i] == Row(keyText(removed[i]), "", ())
    ensures Lists(rows, KeysOf(updated, removed), changes, keyText, assetText)
  {
    hide KeysOf;
    var keys := KeysOf(updated, removed);
    forall i | 0 <= i < |keys|
      ensures keys[i] in changes && rows[i] == Row(keyText(keys[i]), ChangeText(changes[keys[i]], assetText), ())
    {
      if i < |updated| {
        assert Get(changes, KeyOf(updated[i])) == Some(Some(updated[i]));
      } else {
        assert Get(changes, removed[i - |updated|]) == Some(None);
        assert rows[|updated| + (i - |updated|)] == Row(keyText(removed[i - |updated|]), "", ());
      }
    }
    forall i, j | 0 <= i < j < |keys| ensures keys[i] != keys[j] {
      if i < |updated| <= j {
        assert Get(changes, KeyOf(updated[i])) == Some(Some(updated[i]));
        assert Get(changes, removed[j - |updated|]) == Some(None);
      }
    }
    forall k | k in changes ensures k in keys {
      if changes[k].Some? {
        var i :| 0 <= i < |updated| && updated[i] == changes[k].value;
        assert keys[i] == k;
      } else {
        var i :| 0 <= i < |removed| && removed[i] == k;
        assert keys[|updated| + i] == k;
      }
    }
  }

  /** So the store may apply the list: no two of its rows share a key. */
  lemma ChangeListDistinct(rows: seq<Row<string, ()>>, keys: seq<VaultKey>, changes: map<VaultKey, Option<Asset>>,
                           keyText: VaultKey -> string, assetText: Asset -> string)
    requires Lists(rows, keys, changes, keyText, assetText) && Readable(keyText, assetText)
    ensures DistinctKeys(rows)
  {
    forall i, j | 0 <= i < j < |rows| ensures rows[i].key != rows[j].key {
      assert rows[i].key == keyText(keys[i]) && rows[j].key == keyText(keys[j]) && keys[i] != keys[j];
    }
  }

  /**
   * End to end: the change list of a delta, applied by the store's delta loop, turns a table that stores
   * the old vault into one that stores the new vault.
   */
  lemma TableFollowsVault(table: Current<string, ()>, v: Vault, changes: map<VaultKey, Option<Asset>>,
                          rows: seq<Row<string, ()>>,
                          keys: seq<VaultKey>, keyText: VaultKey -> string, assetText: Asset -> string)
    requires Stores(table, v, keyText, assetText) && Readable(keyText, assetText)
             && Lists(rows, keys, changes, keyText, assetText)
    ensures Stores(Patched(table, DeltaOf(rows, true)), Changed(v, changes), keyText, assetText)
  {
    hide Changed, Patched, DeltaOf;
    var table', v' := Patched(table, DeltaOf(rows, true)), Changed(v, changes);
    forall k ensures Get(table', keyText(k)) == if k in v' then Some(Cell(assetText(v'[k]), ())) else None {
      CellFollows(table, v, changes, rows, keys, keyText, assetText, k);
    }
    forall s | s in table' ensures exists k :: k in v' && keyText(k) == s {
      var k := StoredKey(table, v, changes, rows, keys, keyText, assetText, s);
      assert Get(table', keyText(k)).Some?;
    }
  }

  /** Whatever key the new table has is the text of a vault key. */
  lemma StoredKey(table: Current<string, ()>, v: Vault, changes: map<VaultKey, Option<Asset>>,
                  rows: seq<Row<string, ()>>,
                  keys: seq<VaultKey>, keyText: VaultKey -> string, assetText: Asset -> string,
                      s: string) returns (k: VaultKey)
    requires Stores(table, v, keyText, assetText) && Lists(rows, keys, changes, keyText, assetText)
    requires s in Patched(table, DeltaOf(rows, true))
    ensures keyText(k) == s
  {
    hide Patched, DeltaOf;
    if i :| 0 <= i < |rows| && rows[i].key == s {
      k := keys[i];
    } else {
      DeltaOfOnly(rows, true, s);
      assert Get(Patched(table, DeltaOf(rows, true)), s) == Get(table, s);
      k :| k in v && keyText(k) == s;
    }
  }

  lemma CellFollows(table: Current<string, ()>, v: Vault, changes: map<VaultKey, Option<Asset>>,
                    rows: seq<Row<string, ()>>,
                    keys: seq<VaultKey>, keyText: VaultKey -> string, assetText: Asset -> string, k: VaultKey)
    requires Stores(table, v, keyText, assetText) && Readable(keyText, assetText)
             && Lists(rows, keys, changes, keyText, assetText)
    ensures Get(Patched(table, DeltaOf(rows, true)), keyText(k)) ==
            if k in Changed(v, changes) then Some(Cell(assetText(Changed(v, changes)[k]), ())) else None
  {
    hide Changed, Patched, DeltaOf;
    assert Get(Changed(v, changes), k) == if k in changes then changes[k] else Get(v, k);
    assert Get(table, keyText(k)) == if k in v then Some(Cell(assetText(v[k]), ())) else None;
    if k in changes {
      var i :| 0 <= i < |keys| && keys[i] == k;
      ChangeListDistinct(rows, keys, changes, keyText, assetText);
      DeltaOfAt(rows, true, i);
    } else {
      assert forall i :: 0 <= i < |rows| ==> rows[i].key == keyText(keys[i]) && keys[i] != k;
      DeltaOfOnly(rows, true, keyText(k));
    }
  }

  /**
   * The delta path of the vault as a whole. When no entry fails, the change list may be applied, and
   * applying it to a table that stores the old vault stores a vault without zero balances, whose fungible
   * balances are conserved exactly when the delta is applicable, and whose non-fungible assets follow the
   * actions.
   */
  method VaultChangeList(assets: seq<Asset>, d: Delta, maxAmount: nat, keyText: VaultKey -> string,
                         assetText: Asset -> string,
                         ghost v: Vault, ghost table: Current<string, ()>)
    returns (r: Result<seq<Row<string, ()>>, VaultError>, ghost v': Vault)
    requires ValidVault(v) && Covers(assets, v, d) && DistinctDelta(d)
    requires Readable(keyText, assetText) && Stores(table, v, keyText, assetText)
    ensures r.Ok? <==> forall i :: 0 <= i < |d.fungible| ==> EntryFits(v, d, maxAmount, i)
    ensures r.Ok? ==>
              DistinctKeys(r.value) && Stores(Patched(table, DeltaOf(r.value, true)), v', keyText, assetText)
              && ValidVault(v')
    ensures r.Ok? ==> ((forall f :: Balance(v', f) == Balance(v, f) + ChangeOf(d.fungible, f)) <==> Applicable(v, d))
    ensures r.Ok? ==> forall nft :: NonFungibleKey(nft) in v' <==>
              || (exists i :: 0 <= i < |d.nonFungible| && d.nonFungible[i] == (nft, Add))
              || (&& NonFungibleKey(nft) in v
                  && forall i :: 0 <= i < |d.nonFungible| ==> d.nonFungible[i] != (nft, Remove))
  {
    hide Outcome, Changes, Changed, Lists, Stores, Readable, DistinctKeys, ValidVault, Applicable, Balance, Patched,
         DeltaOf, DistinctDelta, Covers;
    v' := v;
    var computed: Result<(seq<Asset>, seq<VaultKey>), VaultError>;
    ghost var changes;
    computed, changes := ComputeVaultDelta(assets, d, maxAmount, v);
    if computed.Err? {
      return Err(computed.error), v;
    }
    var (updated, removed) := computed.value;
    var rows := ChangedAssets(updated, removed, keyText, assetText);
    ghost var keys := KeysOf(updated, removed);
    ChangeListComplete(rows, updated, removed, changes, keyText, assetText);
    ChangeListDistinct(rows, keys, changes, keyText, assetText);
    TableFollowsVault(table, v, changes, rows, keys, keyText, assetText);
    v' := Changed(v, changes);
    VaultStaysValid(v, d, maxAmount, changes);
    BalancesConservedIff(v, d, maxAmount, changes);
    forall nft
      ensures NonFungibleKey(nft) in v' <==>
              || (exists i :: 0 <= i < |d.nonFungible| && d.nonFungible[i] == (nft, Add))
              || (&& NonFungibleKey(nft) in v
                  && forall i :: 0 <= i < |d.nonFungible| ==> d.nonFungible[i] != (nft, Remove))
    {
      NonFungiblesFollowActions(v, d, maxAmount, changes, nft);
    }
    r := Ok(rows);
  }

  /** Taking five units of a faucet the vault does not hold leaves five units of it. */
  lemma TakingFromNothingStores(changes: map<VaultKey, Option<Asset>>)
    requires Changes(map[], Delta([("faucet", -5)], []), 10, 1, 0, changes)
    ensures Balance(Changed(map[], changes), "faucet") == 5
  {
    var d := Delta([("faucet", -5)], []);
    ChangeOfAt(d.fungible, 0);
    TouchedBalance(map[], d, 10, changes, 0);
  }
}
