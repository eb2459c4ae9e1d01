// Payments from the wallet's own unspent outputs.
module Wallet {
  import opened Prelude
  import opened Tx
  import opened Ledger
  import opened Conservation
  import opened Emission
  import opened Tree
  import opened TreeProofs
  import opened Chain

  datatype Keypair = Keypair(scheme: SigScheme, public: Bytes, secret: Bytes)

  // Key derivation and signing are arbitrary functions.
  datatype Keyring = Keyring(key: (SigScheme, U32) -> Keypair, sign: (Keypair, Hash) -> Bytes, nextIndex: U32)

  type KeyId = (SigScheme, Pkh)
  type KeyMap = map<KeyId, Keypair>

  datatype OwnedUtxo = OwnedUtxo(outpoint: Op, output: TxOutput, coinbase: bool, height: nat)

  datatype WalletError = Insufficient(have: nat, need: nat) | AmountOverflow | MissingKey

  // ----- keys -----

  function KeyList(w: Keyring): seq<Keypair> {
    seq(w.nextIndex, (i: int) requires 0 <= i < w.nextIndex => w.key(MlDsa, i))
    + seq(w.nextIndex, (i: int) requires 0 <= i < w.nextIndex => w.key(SlhDsa, i))
  }

  function IdOf(p: Params, k: Keypair): KeyId {
    (k.scheme, p.pubkeyHash(k.public))
  }

  function LockId(lock: Lock): KeyId {
    (lock.scheme, lock.pkh)
  }

  function Indexed(p: Params, keys: seq<Keypair>): KeyMap {
    if keys == [] then map[]
    else
      var k := keys[|keys| - 1];
      Indexed(p, keys[..|keys| - 1])[IdOf(p, k) := k]
  }

  lemma {:induction false} IndexedKeys(p: Params, keys: seq<Keypair>)
    ensures forall id :: id in Indexed(p, keys) ==> Indexed(p, keys)[id] in keys && IdOf(p, Indexed(p, keys)[id]) == id
    ensures forall k :: k in keys ==> IdOf(p, k) in Indexed(p, keys)
  {
    if keys != [] {
      IndexedKeys(p, keys[..|keys| - 1]);
      forall k | k in keys
        ensures IdOf(p, k) in Indexed(p, keys)
      {
        assert k in keys[..|keys| - 1] || k == keys[|keys| - 1];
      }
    }
  }

  method OwnedKeys(p: Params, w: Keyring) returns (owned: KeyMap)
    ensures owned == Indexed(p, KeyList(w))
  {
    var keys: seq<Keypair> := [];
    for i := 0 to w.nextIndex
      invariant keys == seq(i, (j: int) requires 0 <= j < i => w.key(MlDsa, j))
    {
      keys := keys + [w.key(MlDsa, i)];
    }
    ghost var everyday := keys;
    for i := 0 to w.nextIndex
      invariant keys == everyday + seq(i, (j: int) requires 0 <= j < i => w.key(SlhDsa, j))
    {
      keys := keys + [w.key(SlhDsa, i)];
    }
    assert keys == KeyList(w);
    owned := map[];
    for i := 0 to |keys|
      invariant owned == Indexed(p, keys[..i])
    {
      assert keys[..i + 1][..i] == keys[..i];
      owned := owned[IdOf(p, keys[i]) := keys[i]];
    }
    assert keys[..|keys|] == keys;
  }

  // ----- what may be spent -----

  predicate Spendable(x: OwnedUtxo, nextHeight: nat, maturity: nat) {
    && (x.coinbase ==> nextHeight >= x.height + maturity)
    && (x.output.lock.Timelock? ==> nextHeight >= x.output.lock.height)
  }

  predicate Eligible(owned: KeyMap, x: OwnedUtxo, nextHeight: nat, maturity: nat) {
    Spendable(x, nextHeight, maturity) && LockId(x.output.lock) in owned
  }

  function Candidates(owned: KeyMap, utxos: seq<OwnedUtxo>, nextHeight: nat, maturity: nat): seq<OwnedUtxo> {
    if utxos == [] then []
    else
      var n := |utxos| - 1;
      Candidates(owned, utxos[..n], nextHeight, maturity)
      + (if Eligible(owned, utxos[n], nextHeight, maturity) then [utxos[n]] else [])
  }

  function AmountSum(s: seq<OwnedUtxo>): nat {
    if s == [] then 0 else AmountSum(s[..|s| - 1]) + s[|s| - 1].output.amount
  }

  // ----- largest first, ties in the given order -----

  function Place(s: seq<OwnedUtxo>, x: OwnedUtxo): seq<OwnedUtxo> {
    if s == [] || s[|s| - 1].output.amount >= x.output.amount then s + [x]
    else Place(s[..|s| - 1], x) + [s[|s| - 1]]
  }

  function LargestFirst(s: seq<OwnedUtxo>): seq<OwnedUtxo> {
    if s == [] then [] else Place(LargestFirst(s[..|s| - 1]), s[|s| - 1])
  }

  predicate Falling(s: seq<OwnedUtxo>) {
    forall i, j :: 0 <= i < j < |s| ==> s[i].output.amount >= s[j].output.amount
  }

  function OfAmount(s: seq<OwnedUtxo>, a: nat): seq<OwnedUtxo> {
    if s == [] then []
    else OfAmount(s[..|s| - 1], a) + (if s[|s| - 1].output.amount == a then [s[|s| - 1]] else [])
  }

  lemma SnocBag(s: seq<OwnedUtxo>, x: OwnedUtxo)
    ensures multiset(s + [x]) == multiset(s) + multiset{x}
  {
  }

  lemma SplitLast(s: seq<OwnedUtxo>)
    requires s != []
    ensures s == s[..|s| - 1] + [s[|s| - 1]]
    ensures multiset(s) == multiset(s[..|s| - 1]) + multiset{s[|s| - 1]}
  {
    SnocBag(s[..|s| - 1], s[|s| - 1]);
    assert s == s[..|s| - 1] + [s[|s| - 1]];
  }

  lemma {:induction false} PlacedBag(s: seq<OwnedUtxo>, x: OwnedUtxo)
    ensures multiset(Place(s, x)) == multiset(s) + multiset{x}
  {
    if s == [] || s[|s| - 1].output.amount >= x.output.amount {
      SnocBag(s, x);
    } else {
      SplitLast(s);
      PlacedBag(s[..|s| - 1], x);
      SnocBag(Place(s[..|s| - 1], x), s[|s| - 1]);
    }
  }

  lemma FallsSnoc(s: seq<OwnedUtxo>, y: OwnedUtxo)
    requires Falling(s) && forall z :: z in s ==> z.output.amount >= y.output.amount
    ensures Falling(s + [y])
  {
  }

  lemma {:induction false} PlacedFalls(s: seq<OwnedUtxo>, x: OwnedUtxo)
    requires Falling(s)
    ensures forall z :: z in Place(s, x) ==> z in s || z == x
    ensures Falling(Place(s, x))
  {
    if s == [] || s[|s| - 1].output.amount >= x.output.amount {
      FallsSnoc(s, x);
    } else {
      var init, y := s[..|s| - 1], s[|s| - 1];
      PlacedFalls(init, x);
      FallsSnoc(Place(init, x), y);
    }
  }

  lemma {:induction false} PlacedStable(s: seq<OwnedUtxo>, x: OwnedUtxo, a: nat)
    ensures OfAmount(Place(s, x), a) == OfAmount(s, a) + (if x.output.amount == a then [x] else [])
  {
    OfAmountSnoc(s, x, a);
    if s != [] && s[|s| - 1].output.amount < x.output.amount {
      PlacedStable(s[..|s| - 1], x, a);
      OfAmountSnoc(Place(s[..|s| - 1], x), s[|s| - 1], a);
    }
  }

  lemma OfAmountSnoc(s: seq<OwnedUtxo>, x: OwnedUtxo, a: nat)
    ensures OfAmount(s + [x], a) == OfAmount(s, a) + (if x.output.amount == a then [x] else [])
  {
    assert (s + [x])[..|s|] == s;
  }

  // The order is the one stable descending sort.
  lemma {:induction false} LargestFirstSorts(s: seq<OwnedUtxo>)
    ensures Falling(LargestFirst(s)) && multiset(LargestFirst(s)) == multiset(s)
    ensures forall a: nat :: OfAmount(LargestFirst(s), a) == OfAmount(s, a)
  {
    hide OfAmount, Falling;
    if s != [] {
      var init, x := s[..|s| - 1], s[|s| - 1];
      SplitLast(s);
      LargestFirstSorts(init);
      PlacedFalls(LargestFirst(init), x);
      PlacedBag(LargestFirst(init), x);
      forall a: nat
        ensures OfAmount(LargestFirst(s), a) == OfAmount(s, a)
      {
        PlacedStable(LargestFirst(init), x, a);
        OfAmountSnoc(init, x, a);
      }
    } else {
      assert Falling([]) by { NothingFalls(); }
    }
  }

  lemma NothingFalls()
    ensures Falling([])
  {
  }

  // ----- greedy selection -----

  // How many of the first n candidates are taken, and their (wrapping) total.
  function Picked(c: seq<OwnedUtxo>, need: nat, n: nat): (nat, nat)
    requires n <= |c|
    ensures Picked(c, need, n).0 <= n
  {
    if n == 0 then (0, 0)
    else
      var (k, total) := Picked(c, need, n - 1);
      if total >= need then (k, total) else (k + 1, (total + c[n - 1].output.amount) % TWO_64)
  }

  lemma {:induction false} PickedMeaning(c: seq<OwnedUtxo>, need: nat, n: nat)
    requires n <= |c| && AmountSum(c) < TWO_64
    ensures var (k, total) := Picked(c, need, n);
            && k <= n && total == AmountSum(c[..k])
            && (total < need ==> k == n)
            && (k > 0 ==> AmountSum(c[..k - 1]) < need)
  {
    if n > 0 {
      PickedMeaning(c, need, n - 1);
      PrefixAmount(c, n);
      assert c[..n][..n - 1] == c[..n - 1];
    }
  }

  lemma {:induction false} PrefixAmount(s: seq<OwnedUtxo>, n: nat)
    requires n <= |s|
    ensures AmountSum(s[..n]) <= AmountSum(s)
    decreases |s| - n
  {
    if n < |s| {
      PrefixAmount(s, n + 1);
      assert s[..n + 1][..n] == s[..n];
    } else {
      assert s[..n] == s;
    }
  }

  // No selection of k candidates is worth more than the k largest.
  lemma {:induction false} LargestAreMost(c: seq<OwnedUtxo>, sel: seq<OwnedUtxo>)
    requires Falling(c) && multiset(sel) <= multiset(c)
    ensures |sel| <= |c| && AmountSum(sel) <= AmountSum(c[..|sel|])
    decreases |c|
  {
    hide Falling;
    if c == [] {
      assert |multiset(sel)| == 0;
    } else {
      var n := |c| - 1;
      SplitLast(c);
      FallingInit(c, |sel|);
      if c[n] in sel {
        var rest := Without(sel, c[n]);
        OneLess(multiset(rest), multiset(c[..n]), c[n]);
        LargestAreMost(c[..n], rest);
        assert c[..n][..|rest|] == c[..|sel|][..|rest|];
      } else {
        assert multiset(sel)[c[n]] == 0;
        LargestAreMost(c[..n], sel);
        assert c[..n][..|sel|] == c[..|sel|];
      }
    }
  }

  lemma FallingInit(c: seq<OwnedUtxo>, k: nat)
    requires Falling(c) && c != []
    ensures Falling(c[..|c| - 1])
    ensures 0 < k <= |c| ==> c[k - 1].output.amount >= c[|c| - 1].output.amount
  {
  }

  lemma OneLess(a: multiset<OwnedUtxo>, b: multiset<OwnedUtxo>, x: OwnedUtxo)
    requires a + multiset{x} <= b + multiset{x}
    ensures a <= b
  {
    forall y
      ensures a[y] <= b[y]
    {
      assert (a + multiset{x})[y] <= (b + multiset{x})[y];
    }
  }

  // One occurrence fewer.
  lemma {:induction false} Without(sel: seq<OwnedUtxo>, x: OwnedUtxo) returns (rest: seq<OwnedUtxo>)
    requires x in sel
    ensures |sel| == |rest| + 1 && multiset(sel) == multiset(rest) + multiset{x}
    ensures AmountSum(sel) == AmountSum(rest) + x.output.amount
  {
    var n := |sel| - 1;
    SplitLast(sel);
    if sel[n] == x {
      return sel[..n];
    }
    var init := Without(sel[..n], x);
    rest := init + [sel[n]];
    SnocBag(init, sel[n]);
    assert rest[..|init|] == init;
  }

  // ----- building a payment -----

  function Outpoints(s: seq<OwnedUtxo>): (ops: seq<Op>)
    ensures |ops| == |s|
  {
    seq(|s|, i requires 0 <= i < |s| => s[i].outpoint)
  }

  function Signatures(w: Keyring, owned: KeyMap, body: Body, s: seq<OwnedUtxo>): (ws: seq<Witness>)
    requires forall x :: x in s ==> LockId(x.output.lock) in owned
    ensures |ws| == |s|
  {
    seq(|s|, i requires 0 <= i < |s| =>
      var key := owned[LockId(s[i].output.lock)];
      Witness(key.public, w.sign(key, Sighash(body, i % TWO_32, s[i].output))))
  }

  function PaymentBody(p: Params, w: Keyring, s: seq<OwnedUtxo>, change: U64,
                       toScheme: SigScheme, toPkh: Pkh, amount: U64): Body
  {
    var paid := TxOutput(amount, P2pkh(toScheme, toPkh));
    var back := TxOutput(change, P2pkh(MlDsa, p.pubkeyHash(w.key(MlDsa, 0).public)));
    TxBody(1, Outpoints(s), [paid] + (if change > 0 then [back] else []), 0, [])
  }

  function Selected(owned: KeyMap, utxos: seq<OwnedUtxo>, nextHeight: nat, maturity: nat, need: nat): (s: seq<OwnedUtxo>)
    ensures forall x :: x in s ==> LockId(x.output.lock) in owned
  {
    var c := LargestFirst(Candidates(owned, utxos, nextHeight, maturity));
    SortedCandidates(owned, utxos, nextHeight, maturity);
    var s := c[..Picked(c, need, |c|).0];
    assert forall x :: x in s ==> x in c;
    s
  }

  function Payment(p: Params, w: Keyring, utxos: seq<OwnedUtxo>, nextHeight: nat, maturity: nat,
                   toScheme: SigScheme, toPkh: Pkh, amount: U64, fee: U64): Result<Txn, WalletError>
  {
    var owned := Indexed(p, KeyList(w));
    var need := amount + fee;
    if need >= TWO_64 then Err(AmountOverflow)
    else
      var c := LargestFirst(Candidates(owned, utxos, nextHeight, maturity));
      var total := Picked(c, need, |c|).1;
      if total < need then Err(Insufficient(total, need))
      else
        var s := Selected(owned, utxos, nextHeight, maturity, need);
        PickedFits(c, need, |c|);
        var body := PaymentBody(p, w, s, total - need, toScheme, toPkh, amount);
        Ok(Transaction(body, Signatures(w, owned, body, s)))
  }

  lemma {:induction false} PickedFits(c: seq<OwnedUtxo>, need: nat, n: nat)
    requires n <= |c|
    ensures Picked(c, need, n).1 < TWO_64
  {
    if n > 0 {
      PickedFits(c, need, n - 1);
    }
  }

  lemma {:induction false} CandidateMeaning(owned: KeyMap, utxos: seq<OwnedUtxo>, nextHeight: nat, maturity: nat)
    ensures forall x :: x in Candidates(owned, utxos, nextHeight, maturity) <==>
              x in utxos && Eligible(owned, x, nextHeight, maturity)
  {
    if utxos != [] {
      SplitLast(utxos);
      CandidateMeaning(owned, utxos[..|utxos| - 1], nextHeight, maturity);
    }
  }

  // Sorting changes neither which outputs are candidates nor how often.
  lemma SortedCandidates(owned: KeyMap, utxos: seq<OwnedUtxo>, nextHeight: nat, maturity: nat)
    ensures forall x :: x in LargestFirst(Candidates(owned, utxos, nextHeight, maturity)) <==>
              x in utxos && Eligible(owned, x, nextHeight, maturity)
  {
    hide LargestFirst, OfAmount, Falling;
    var c := Candidates(owned, utxos, nextHeight, maturity);
    CandidateMeaning(owned, utxos, nextHeight, maturity);
    LargestFirstSorts(c);
    assert forall x :: x in LargestFirst(c) <==> x in multiset(LargestFirst(c));
    assert forall x :: x in c <==> x in multiset(c);
  }

  // Greedy selection, change and signing.
  method BuildSend(p: Params, w: Keyring, utxos: seq<OwnedUtxo>, nextHeight: nat, maturity: nat,
                   toScheme: SigScheme, toPkh: Pkh, amount: U64, fee: U64)
    returns (r: Result<Txn, WalletError>)
    ensures r == Payment(p, w, utxos, nextHeight, maturity, toScheme, toPkh, amount, fee)
  {
    hide Indexed, KeyList, LargestFirst, Eligible;
    var owned := OwnedKeys(p, w);
    var candidates: seq<OwnedUtxo> := [];
    for i := 0 to |utxos|
      invariant candidates == Candidates(owned, utxos[..i], nextHeight, maturity)
    {
      assert utxos[..i + 1][..i] == utxos[..i];
      if Eligible(owned, utxos[i], nextHeight, maturity) {
        candidates := candidates + [utxos[i]];
      }
    }
    assert utxos[..|utxos|] == utxos;
    candidates := LargestFirst(candidates);
    var need := amount + fee;
    if need >= TWO_64 {
      return Err(AmountOverflow);
    }
    var selected, total := SelectLoop(candidates, need);
    if total < need {
      return Err(Insufficient(total, need));
    }
    assert selected == Selected(owned, utxos, nextHeight, maturity, need);
    PickedFits(candidates, need, |candidates|);
    var change := total - need;
    var body := PaymentBody(p, w, selected, change, toScheme, toPkh, amount);
    var witnesses: seq<Witness> := [];
    for i := 0 to |selected|
      invariant |witnesses| == i
      invariant forall j :: 0 <= j < i ==> witnesses[j] == Signatures(w, owned, body, selected)[j]
    {
      var u := selected[i];
      assert u in selected;
      var key := owned[LockId(u.output.lock)];  // a missing key cannot happen: candidates are owned
      var sighash := Sighash(body, i % TWO_32, u.output);
      witnesses := witnesses + [Witness(key.public, w.sign(key, sighash))];
    }
    assert witnesses == Signatures(w, owned, body, selected);
    return Ok(Transaction(body, witnesses));
  }

  method SelectLoop(candidates: seq<OwnedUtxo>, need: nat) returns (selected: seq<OwnedUtxo>, total: nat)
    ensures selected == candidates[..Picked(candidates, need, |candidates|).0]
    ensures total == Picked(candidates, need, |candidates|).1
  {
    selected, total := [], 0;
    for i := 0 to |candidates|
      invariant |selected| <= i && selected == candidates[..|selected|]
      invariant Picked(candidates, need, i) == (|selected|, total)
      invariant total < need ==> |selected| == i
    {
      if total >= need {
        PickedStops(candidates, need, i, |candidates|);
        return;
      }
      total := (total + candidates[i].output.amount) % TWO_64;
      selected := selected + [candidates[i]];
    }
  }

  lemma {:induction false} PickedStops(c: seq<OwnedUtxo>, need: nat, i: nat, n: nat)
    requires i <= n <= |c| && Picked(c, need, i).1 >= need
    ensures Picked(c, need, n) == Picked(c, need, i)
  {
    if i < n {
      PickedStops(c, need, i, n - 1);
    }
  }

  // ----- what a payment achieves -----

  // The wallet's listing of a chain state: each owned output once, as it is there.
  ghost predicate Lists(owned: KeyMap, u: UtxoMap, utxos: seq<OwnedUtxo>) {
    && (forall i, j :: 0 <= i < j < |utxos| ==> utxos[i].outpoint != utxos[j].outpoint)
    && (forall x :: x in utxos ==> x.outpoint in u && x == Entry(u, x.outpoint))
    && (forall op :: op in u && LockId(u[op].output.lock) in owned ==> Entry(u, op) in utxos)
  }

  function Entry(u: UtxoMap, op: Op): OwnedUtxo
    requires op in u
  {
    OwnedUtxo(op, u[op].output, u[op].coinbase, u[op].height)
  }

  // Outputs of the chain state the wallet can spend in the next block.
  function Funds(owned: KeyMap, u: UtxoMap, nextHeight: nat, maturity: nat): UtxoMap {
    map op | op in u && Eligible(owned, Entry(u, op), nextHeight, maturity) :: u[op]
  }

  method CollectOwned(owned: KeyMap, u: UtxoMap) returns (utxos: seq<OwnedUtxo>)
    ensures Lists(owned, u, utxos)
  {
    utxos := [];
    var left := u.Keys;
    while left != {}
      invariant left <= u.Keys
      invariant forall i, j :: 0 <= i < j < |utxos| ==> utxos[i].outpoint != utxos[j].outpoint
      invariant forall x :: x in utxos ==> x.outpoint in u && x.outpoint !in left && x == Entry(u, x.outpoint)
      invariant forall op :: op in u && op !in left && LockId(u[op].output.lock) in owned ==> Entry(u, op) in utxos
    {
      var op :| op in left;
      left := left - {op};
      if LockId(u[op].output.lock) in owned {
        utxos := utxos + [Entry(u, op)];
      }
    }
  }

  // (spendable, pending); the sums wrap at 64 bits.
  method Balances(utxos: seq<OwnedUtxo>, nextHeight: nat, maturity: nat) returns (spendable: nat, pending: nat)
    ensures AmountSum(utxos) < TWO_64 ==>
              spendable == AmountSum(SpendableOnly(utxos, nextHeight, maturity)) && spendable + pending == AmountSum(utxos)
  {
    var total: nat := 0;
    spendable := 0;
    for i := 0 to |utxos|
      invariant AmountSum(utxos) < TWO_64 ==>
                  total == AmountSum(utxos[..i])
                  && spendable == AmountSum(SpendableOnly(utxos[..i], nextHeight, maturity)) <= total
    {
      assert utxos[..i + 1][..i] == utxos[..i];
      PrefixAmount(utxos, i + 1);
      AmountSnoc(SpendableOnly(utxos[..i], nextHeight, maturity), utxos[i]);
      total := (total + utxos[i].output.amount) % TWO_64;
      if Spendable(utxos[i], nextHeight, maturity) {
        spendable := (spendable + utxos[i].output.amount) % TWO_64;
      }
    }
    assert utxos[..|utxos|] == utxos;
    pending := (total - spendable) % TWO_64;
  }

  function SpendableOnly(utxos: seq<OwnedUtxo>, nextHeight: nat, maturity: nat): seq<OwnedUtxo> {
    if utxos == [] then []
    else
      var n := |utxos| - 1;
      SpendableOnly(utxos[..n], nextHeight, maturity)
      + (if Spendable(utxos[n], nextHeight, maturity) then [utxos[n]] else [])
  }

  lemma AmountSnoc(s: seq<OwnedUtxo>, x: OwnedUtxo)
    ensures AmountSum(s + [x]) == AmountSum(s) + x.output.amount
    ensures s + [] == s
  {
    assert (s + [x])[..|s|] == s;
  }

  ghost predicate DistinctOps(s: seq<OwnedUtxo>) {
    forall i, j :: 0 <= i < j < |s| ==> s[i].outpoint != s[j].outpoint
  }

  lemma DistinctSnoc(s: seq<OwnedUtxo>, y: OwnedUtxo)
    requires DistinctOps(s) && forall z :: z in s ==> z.outpoint != y.outpoint
    ensures DistinctOps(s + [y])
  {
    assert forall i :: 0 <= i < |s| ==> s[i] in s;
  }

  lemma {:induction false} PlacedDistinct(s: seq<OwnedUtxo>, x: OwnedUtxo)
    requires DistinctOps(s) && forall z :: z in s ==> z.outpoint != x.outpoint
    ensures DistinctOps(Place(s, x))
    ensures forall z :: z in Place(s, x) ==> z in s || z == x
  {
    if s == [] || s[|s| - 1].output.amount >= x.output.amount {
      DistinctSnoc(s, x);
    } else {
      PlacedDistinct(s[..|s| - 1], x);
      DistinctSnoc(Place(s[..|s| - 1], x), s[|s| - 1]);
    }
  }

  lemma {:induction false} SortedDistinct(s: seq<OwnedUtxo>)
    requires DistinctOps(s)
    ensures DistinctOps(LargestFirst(s))
    ensures forall z :: z in LargestFirst(s) ==> z in s
  {
    if s != [] {
      SortedDistinct(s[..|s| - 1]);
      PlacedDistinct(LargestFirst(s[..|s| - 1]), s[|s| - 1]);
    }
  }

  lemma {:induction false} CandidatesDistinct(owned: KeyMap, utxos: seq<OwnedUtxo>, nextHeight: nat, maturity: nat)
    requires DistinctOps(utxos)
    ensures DistinctOps(Candidates(owned, utxos, nextHeight, maturity))
  {
    hide Eligible;
    if utxos != [] {
      CandidatesDistinct(owned, utxos[..|utxos| - 1], nextHeight, maturity);
      CandidateMeaning(owned, utxos[..|utxos| - 1], nextHeight, maturity);
      DistinctSnoc(Candidates(owned, utxos[..|utxos| - 1], nextHeight, maturity), utxos[|utxos| - 1]);
    }
  }

  // The inputs of a selection bring in its amounts.
  lemma {:induction false} InputsAre(u: UtxoMap, s: seq<OwnedUtxo>)
    requires forall x :: x in s ==> x.outpoint in u && u[x.outpoint].output == x.output
    ensures forall op :: op in Outpoints(s) ==> op in u
    ensures InputSum(u, Outpoints(s)) == AmountSum(s)
  {
    if s != [] {
      var n := |s| - 1;
      InputsAre(u, s[..n]);
      assert Outpoints(s)[..n] == Outpoints(s[..n]);
      assert s[n] in s;
    }
  }

  // The sorted candidates are exactly the funds, and within the whole total.
  lemma CandidatesAreFunds(owned: KeyMap, u: UtxoMap, utxos: seq<OwnedUtxo>, nextHeight: nat, maturity: nat)
    requires Lists(owned, u, utxos)
    ensures var c := LargestFirst(Candidates(owned, utxos, nextHeight, maturity));
            && DistinctOps(c)
            && (forall x :: x in c ==> x in utxos && Eligible(owned, x, nextHeight, maturity))
            && AmountSum(c) == Total(Funds(owned, u, nextHeight, maturity)) <= Total(u)
  {
    hide LargestFirst, Eligible, Total, AmountSum, InputSum;
    var funds, c := Funds(owned, u, nextHeight, maturity), LargestFirst(Candidates(owned, utxos, nextHeight, maturity));
    CandidatesDistinct(owned, utxos, nextHeight, maturity);
    SortedDistinct(Candidates(owned, utxos, nextHeight, maturity));
    SortedCandidates(owned, utxos, nextHeight, maturity);
    var ops := Outpoints(c);
    InputsAre(u, c);
    TotalSpend(u, ops);
    forall x | x in c
      ensures x.outpoint in funds && funds[x.outpoint].output == x.output
    {
      assert x == Entry(u, x.outpoint);
    }
    InputsAre(funds, c);
    TotalSpend(funds, ops);
    forall op | op in funds
      ensures op in ops
    {
      EligibleOwned(owned, Entry(u, op), nextHeight, maturity);
      assert Entry(u, op) in c;
      var i :| 0 <= i < |c| && c[i] == Entry(u, op);
      assert ops[i] == op;
    }
    assert Spend(funds, ops) == map[];
    NoTotal();
  }

  lemma EligibleOwned(owned: KeyMap, x: OwnedUtxo, nextHeight: nat, maturity: nat)
    requires Eligible(owned, x, nextHeight, maturity)
    ensures LockId(x.output.lock) in owned
  {
  }

  lemma NoTotal()
    ensures Total(map[]) == 0
  {
  }

  // Signing with a key of the wallet satisfies the verifier.
  ghost predicate KeysSign(p: Params, w: Keyring) {
    forall k, m :: k in KeyList(w) ==> p.verify(k.scheme, k.public, m, w.sign(k, m))
  }

  // What paying with selection s achieves.
  ghost predicate PaidBy(p: Params, w: Keyring, u: UtxoMap, nextHeight: nat, tx: Txn,
                         toScheme: SigScheme, toPkh: Pkh, amount: U64, fee: U64)
  {
    && (forall op :: op in tx.body.inputs ==> op in u)
    && InputSum(u, tx.body.inputs) == OutputSum(tx.body.outputs) + fee
    && tx.body.outputs != []
    && tx.body.outputs[0] == TxOutput(amount, P2pkh(toScheme, toPkh))
    && (forall i :: 1 <= i < |tx.body.outputs| ==>
          tx.body.outputs[i].lock == P2pkh(MlDsa, p.pubkeyHash(w.key(MlDsa, 0).public)))
    && StandaloneCheck(p, u, nextHeight, tx)
       == if amount > 0 then Ok(fee) else Err(if fee == 0 then NoInputs else ZeroOutput)
  }

  ghost predicate GoodSelection(p: Params, owned: KeyMap, u: UtxoMap, nextHeight: nat, s: seq<OwnedUtxo>, need: nat) {
    && DistinctOps(s)
    && (forall x :: x in s ==>
          x.outpoint in u && x == Entry(u, x.outpoint) && Eligible(owned, x, nextHeight, p.coinbaseMaturity))
    && need <= AmountSum(s) < TWO_64
    && (need == 0 ==> s == [])
  }

  lemma PaymentAccepted(p: Params, w: Keyring, u: UtxoMap, nextHeight: nat,
                        toScheme: SigScheme, toPkh: Pkh, amount: U64, fee: U64, s: seq<OwnedUtxo>)
    requires var owned := Indexed(p, KeyList(w)); GoodSelection(p, owned, u, nextHeight, s, amount + fee)
    requires KeysSign(p, w)
    ensures var owned := Indexed(p, KeyList(w));
            && (forall x :: x in s ==> LockId(x.output.lock) in owned)
            && var body := PaymentBody(p, w, s, AmountSum(s) - amount - fee, toScheme, toPkh, amount);
               PaidBy(p, w, u, nextHeight, Transaction(body, Signatures(w, owned, body, s)), toScheme, toPkh, amount, fee)
  {
    hide Indexed, KeyList, AmountSum, KeysSign, StandaloneCheck, InputSum, OutputSum, MaySpend, Eligible;
    var owned := Indexed(p, KeyList(w));
    SelectionOwned(p, owned, u, nextHeight, s, amount + fee);
    var body := PaymentBody(p, w, s, AmountSum(s) - amount - fee, toScheme, toPkh, amount);
    var tx := Transaction(body, Signatures(w, owned, body, s));
    InputsAre(u, s);
    PaidOut(body.outputs, amount, AmountSum(s) - amount - fee);
    Witnessed(p, w, u, nextHeight, s, tx);
    if amount + fee > 0 {
      NonzeroSelected(s);
    }
    PaymentChecked(p, u, nextHeight, tx, s, amount, fee);
  }

  lemma SelectionOwned(p: Params, owned: KeyMap, u: UtxoMap, nextHeight: nat, s: seq<OwnedUtxo>, need: nat)
    requires GoodSelection(p, owned, u, nextHeight, s, need)
    ensures forall x :: x in s ==> LockId(x.output.lock) in owned
  {
  }

  // The node's verdict on a witnessed payment.
  lemma PaymentChecked(p: Params, u: UtxoMap, nextHeight: nat, tx: Txn, s: seq<OwnedUtxo>, amount: nat, fee: nat)
    requires |tx.witnesses| == |tx.body.inputs| && tx.body.inputs == Outpoints(s) && DistinctOps(s)
    requires s == [] <==> amount + fee == 0
    requires forall i :: 0 <= i < |s| ==> tx.body.inputs[i] in u && MaySpend(p, tx, nextHeight, i, u[tx.body.inputs[i]])
    requires forall op :: op in tx.body.inputs ==> op in u
    requires InputSum(u, tx.body.inputs) == OutputSum(tx.body.outputs) + fee < TWO_64 && tx.body.coinbaseData == []
    requires tx.body.outputs != [] && tx.body.outputs[0].amount == amount
    requires forall i :: 1 <= i < |tx.body.outputs| ==> tx.body.outputs[i].amount > 0
    ensures StandaloneCheck(p, u, nextHeight, tx)
            == if amount > 0 then Ok(fee) else Err(if fee == 0 then NoInputs else ZeroOutput)
  {
    hide CheckTx, InputSum, OutputSum, MaySpend;
    if amount > 0 {
      SpendAccepted(p, u, nextHeight, tx, s, fee);
    } else if fee > 0 {
      ZeroRefused(p, u, nextHeight, tx, s);
    }
  }

  // A witnessed spend of a selection that pays out all but the fee, in positive amounts.
  lemma SpendAccepted(p: Params, u: UtxoMap, nextHeight: nat, tx: Txn, s: seq<OwnedUtxo>, fee: nat)
    requires |tx.witnesses| == |tx.body.inputs| && tx.body.inputs == Outpoints(s) && DistinctOps(s) && s != []
    requires forall i :: 0 <= i < |s| ==> tx.body.inputs[i] in u && MaySpend(p, tx, nextHeight, i, u[tx.body.inputs[i]])
    requires InputSum(u, tx.body.inputs) == OutputSum(tx.body.outputs) + fee < TWO_64 && tx.body.coinbaseData == []
    requires tx.body.outputs != [] && forall o :: o in tx.body.outputs ==> o.amount > 0
    ensures StandaloneCheck(p, u, nextHeight, tx) == Ok(fee)
  {
    hide CheckTx, InputSum, OutputSum, MaySpend;
    CheckTxMeaning(p, tx, nextHeight, u);
  }

  lemma NonzeroSelected(s: seq<OwnedUtxo>)
    requires AmountSum(s) > 0
    ensures s != []
  {
  }

  lemma PaidOut(outs: seq<TxOutput>, amount: nat, change: nat)
    requires outs != [] && outs[0].amount == amount
    requires if change > 0 then |outs| == 2 && outs[1].amount == change else |outs| == 1
    ensures OutputSum(outs) == amount + change
  {
    assert OutputSum(outs[..1]) == OutputSum(outs[..0]) + amount;
    assert outs[..1][..0] == outs[..0];
    if change == 0 {
      assert outs[..1] == outs;
    }
  }

  // Each selected output may be spent by its witness.
  lemma Witnessed(p: Params, w: Keyring, u: UtxoMap, nextHeight: nat, s: seq<OwnedUtxo>, tx: Txn)
    requires forall x :: x in s ==>
               x.outpoint in u && x == Entry(u, x.outpoint) && Eligible(Indexed(p, KeyList(w)), x, nextHeight, p.coinbaseMaturity)
    requires KeysSign(p, w) && tx.body.inputs == Outpoints(s)
    requires forall x :: x in s ==> LockId(x.output.lock) in Indexed(p, KeyList(w))
    requires tx.witnesses == Signatures(w, Indexed(p, KeyList(w)), tx.body, s)
    ensures forall i :: 0 <= i < |s| ==> tx.body.inputs[i] in u && MaySpend(p, tx, nextHeight, i, u[tx.body.inputs[i]])
  {
    hide Indexed, KeyList;
    var owned := Indexed(p, KeyList(w));
    IndexedKeys(p, KeyList(w));
    forall i | 0 <= i < |s|
      ensures tx.body.inputs[i] in u && MaySpend(p, tx, nextHeight, i, u[tx.body.inputs[i]])
    {
      var x := s[i];
      assert x in s;
      var key := owned[LockId(x.output.lock)];
      assert key in KeyList(w) && IdOf(p, key) == LockId(x.output.lock);
    }
  }

  // A zero payment with a fee passes every check but that of its first output.
  lemma ZeroRefused(p: Params, u: UtxoMap, nextHeight: nat, tx: Txn, s: seq<OwnedUtxo>)
    requires |tx.witnesses| == |tx.body.inputs| && tx.body.inputs == Outpoints(s) && DistinctOps(s) && s != []
    requires forall i :: 0 <= i < |s| ==> tx.body.inputs[i] in u && MaySpend(p, tx, nextHeight, i, u[tx.body.inputs[i]])
    requires InputSum(u, tx.body.inputs) < TWO_64 && tx.body.coinbaseData == []
    requires tx.body.outputs != [] && tx.body.outputs[0].amount == 0
    ensures StandaloneCheck(p, u, nextHeight, tx) == Err(ZeroOutput)
  {
    hide CheckInputs, CheckOutputs, FirstRepeat, InputSum, MaySpend;
    RepeatFree(tx.body.inputs, |tx.body.inputs|);
    InputsPass(p, tx, nextHeight, u, |tx.body.inputs|);
    ZeroFirst(tx.body.outputs, |tx.body.outputs|);
  }

  lemma {:induction false} ZeroFirst(outs: seq<TxOutput>, n: nat)
    requires 0 < n <= |outs| && outs[0].amount == 0
    ensures CheckOutputs(outs, n) == Err(ZeroOutput)
  {
    if n > 1 {
      ZeroFirst(outs, n - 1);
    }
  }

  // Against the chain state it lists, a payment fails exactly when the amounts
  // overflow or the spendable funds fall short.  Otherwise it pays the recipient
  // and the fee out of its inputs to the last unit, and the node accepts it for
  // exactly that fee, unless the amount is zero.
  lemma PaymentMeaning(p: Params, w: Keyring, u: UtxoMap, utxos: seq<OwnedUtxo>, nextHeight: nat,
                       toScheme: SigScheme, toPkh: Pkh, amount: U64, fee: U64)
    requires Lists(Indexed(p, KeyList(w)), u, utxos) && Total(u) < TWO_64 && KeysSign(p, w)
    ensures var funds := Total(Funds(Indexed(p, KeyList(w)), u, nextHeight, p.coinbaseMaturity));
            var r := Payment(p, w, utxos, nextHeight, p.coinbaseMaturity, toScheme, toPkh, amount, fee);
            if amount + fee >= TWO_64 then r == Err(AmountOverflow)
            else if funds < amount + fee then r == Err(Insufficient(funds, amount + fee))
            else r.Ok? && PaidBy(p, w, u, nextHeight, r.value, toScheme, toPkh, amount, fee)
  {
    hide LargestFirst, Candidates, Funds, Total, Indexed, KeyList, AmountSum, KeysSign, Picked, PaymentBody, Signatures, PaidBy, Eligible;
    var owned, need := Indexed(p, KeyList(w)), amount + fee;
    var c := LargestFirst(Candidates(owned, utxos, nextHeight, p.coinbaseMaturity));
    CandidatesAreFunds(owned, u, utxos, nextHeight, p.coinbaseMaturity);
    PickedMeaning(c, need, |c|);
    var (k, total) := Picked(c, need, |c|);
    PrefixAmount(c, k);
    assert c[..|c|] == c;
    if need < TWO_64 && total >= need {
      PaymentAccepted(p, w, u, nextHeight, toScheme, toPkh, amount, fee, c[..k]);
    }
  }

  // No sufficient selection of spendable owned outputs has fewer inputs.
  lemma FewestInputs(p: Params, w: Keyring, utxos: seq<OwnedUtxo>, nextHeight: nat, maturity: nat,
                     toScheme: SigScheme, toPkh: Pkh, amount: U64, fee: U64, sel: seq<OwnedUtxo>)
    requires AmountSum(LargestFirst(Candidates(Indexed(p, KeyList(w)), utxos, nextHeight, maturity))) < TWO_64
    requires amount + fee < TWO_64 && AmountSum(sel) >= amount + fee
    requires multiset(sel) <= multiset(utxos)
    requires forall x :: x in sel ==> Eligible(Indexed(p, KeyList(w)), x, nextHeight, maturity)
    ensures var r := Payment(p, w, utxos, nextHeight, maturity, toScheme, toPkh, amount, fee);
            r.Ok? && |r.value.body.inputs| <= |sel|
  {
    hide LargestFirst, Candidates, Indexed, KeyList, AmountSum, Picked, Signatures, Eligible, Falling, OfAmount;
    var owned, need := Indexed(p, KeyList(w)), amount + fee;
    var cands := Candidates(owned, utxos, nextHeight, maturity);
    LargestFirstSorts(cands);
    CandidateBag(owned, utxos, nextHeight, maturity, sel);
    PickedFewest(LargestFirst(cands), need, sel);
  }

  lemma PickedFewest(c: seq<OwnedUtxo>, need: nat, sel: seq<OwnedUtxo>)
    requires Falling(c) && multiset(sel) <= multiset(c) && need <= AmountSum(sel) && AmountSum(c) < TWO_64
    ensures Picked(c, need, |c|).0 <= |sel| && Picked(c, need, |c|).1 >= need
  {
    hide Falling, AmountSum, Picked;
    LargestAreMost(c, sel);
    PickedMeaning(c, need, |c|);
    assert c[..|c|] == c;
    var k := Picked(c, need, |c|).0;
    PrefixAmount(c, |sel|);
    if k > 0 {
      AmountMonotone(c, |sel|, k - 1);
    }
  }

  lemma AmountMonotone(c: seq<OwnedUtxo>, i: nat, j: nat)
    requires i <= |c| && j <= |c|
    ensures i <= j ==> AmountSum(c[..i]) <= AmountSum(c[..j])
  {
    if i <= j {
      PrefixAmount(c[..j], i);
      assert c[..j][..i] == c[..i];
    }
  }

  lemma {:induction false} CandidateBag(owned: KeyMap, utxos: seq<OwnedUtxo>, nextHeight: nat, maturity: nat, sel: seq<OwnedUtxo>)
    requires multiset(sel) <= multiset(utxos)
    requires forall x :: x in sel ==> Eligible(owned, x, nextHeight, maturity)
    ensures multiset(sel) <= multiset(Candidates(owned, utxos, nextHeight, maturity))
  {
    hide Eligible;
    forall x
      ensures multiset(sel)[x] <= multiset(Candidates(owned, utxos, nextHeight, maturity))[x]
    {
      if x in sel {
        CandidateCount(owned, utxos, nextHeight, maturity, x);
      }
    }
  }

  lemma {:induction false} CandidateCount(owned: KeyMap, utxos: seq<OwnedUtxo>, nextHeight: nat, maturity: nat, x: OwnedUtxo)
    requires Eligible(owned, x, nextHeight, maturity)
    ensures multiset(Candidates(owned, utxos, nextHeight, maturity))[x] == multiset(utxos)[x]
  {
    hide Eligible;
    if utxos != [] {
      var n := |utxos| - 1;
      SplitLast(utxos);
      CandidateCount(owned, utxos[..n], nextHeight, maturity, x);
      SnocBag(Candidates(owned, utxos[..n], nextHeight, maturity), utxos[n]);
    }
  }

  // Distinct spendable outputs of the wallet that together reach an amount.
  ghost predicate Sufficient(funds: UtxoMap, ops: seq<Op>, need: nat) {
    AllDistinct(ops) && (forall op :: op in ops ==> op in funds) && InputSum(funds, ops) >= need
  }

  function EntriesAt(u: UtxoMap, ops: seq<Op>): (s: seq<OwnedUtxo>)
    requires forall op :: op in ops ==> op in u
    ensures |s| == |ops|
  {
    seq(|ops|, i requires 0 <= i < |ops| => Entry(u, ops[i]))
  }

  lemma {:induction false} AtMostOnce(s: seq<OwnedUtxo>, x: OwnedUtxo)
    requires DistinctOps(s)
    ensures multiset(s)[x] <= 1
  {
    if s != [] {
      SplitLast(s);
      AtMostOnce(s[..|s| - 1], x);
      if x == s[|s| - 1] {
        assert x !in s[..|s| - 1];
      }
    }
  }

  // The payment takes no more inputs than any sufficient set of the wallet's funds.
  lemma FewestOfFunds(p: Params, w: Keyring, u: UtxoMap, utxos: seq<OwnedUtxo>, nextHeight: nat,
                      toScheme: SigScheme, toPkh: Pkh, amount: U64, fee: U64, ops: seq<Op>)
    requires Lists(Indexed(p, KeyList(w)), u, utxos) && Total(u) < TWO_64 && amount + fee < TWO_64
    requires Sufficient(Funds(Indexed(p, KeyList(w)), u, nextHeight, p.coinbaseMaturity), ops, amount + fee)
    ensures var r := Payment(p, w, utxos, nextHeight, p.coinbaseMaturity, toScheme, toPkh, amount, fee);
            r.Ok? && |r.value.body.inputs| <= |ops|
  {
    hide Indexed, KeyList, Total, AmountSum, InputSum, Payment, LargestFirst, Candidates, Eligible;
    var owned := Indexed(p, KeyList(w));
    var funds := Funds(owned, u, nextHeight, p.coinbaseMaturity);
    var sel := EntriesAt(funds, ops);
    assert Outpoints(sel) == ops;
    InputsAre(funds, sel);
    CandidatesAreFunds(owned, u, utxos, nextHeight, p.coinbaseMaturity);
    forall x
      ensures multiset(sel)[x] <= multiset(utxos)[x]
    {
      AtMostOnce(sel, x);
      if x in sel {
        EligibleOwned(owned, x, nextHeight, p.coinbaseMaturity);
        assert x == Entry(u, x.outpoint) && x in utxos;
      }
    }
    FewestInputs(p, w, utxos, nextHeight, p.coinbaseMaturity, toScheme, toPkh, amount, fee, sel);
  }

  // A payment against the node's own state: it fails exactly when the amounts
  // overflow or the spendable funds fall short, and otherwise is fully funded, with as
  // few inputs as any sufficient set of the funds.
  method Send(state: ChainState, w: Keyring, toScheme: SigScheme, toPkh: Pkh, amount: U64, fee: U64)
    returns (r: Result<Txn, WalletError>)
    requires state.Valid() && KeysSign(state.params, w)
    ensures var p, u, height := state.params, state.utxos, |state.active|;
            var funds := Total(Funds(Indexed(p, KeyList(w)), u, height, p.coinbaseMaturity));
            if amount + fee >= TWO_64 then r == Err(AmountOverflow)
            else if funds < amount + fee then r == Err(Insufficient(funds, amount + fee))
            else
              && r.Ok? && PaidBy(p, w, u, height, r.value, toScheme, toPkh, amount, fee)
              && forall ops :: Sufficient(Funds(Indexed(p, KeyList(w)), u, height, p.coinbaseMaturity), ops, amount + fee) ==>
                   |r.value.body.inputs| <= |ops|
  {
    hide TreeInv, ApplyChain, ActiveChain, ActivePath, Funds, Total, Indexed, KeyList, KeysSign, Payment, PaidBy, Sufficient;
    var p := state.params;
    var owned := OwnedKeys(p, w);
    var utxos := CollectOwned(owned, state.utxos);
    r := BuildSend(p, w, utxos, |state.active|, p.coinbaseMaturity, toScheme, toPkh, amount, fee);
    StateTotal(p, state.View(), Totals(state.utxos, state.supply));
    PaymentMeaning(p, w, state.utxos, utxos, |state.active|, toScheme, toPkh, amount, fee);
    forall ops | amount + fee < TWO_64 && Sufficient(Funds(owned, state.utxos, |state.active|, p.coinbaseMaturity), ops, amount + fee)
      ensures r.Ok? && |r.value.body.inputs| <= |ops|
    {
      FewestOfFunds(p, w, state.utxos, utxos, |state.active|, toScheme, toPkh, amount, fee, ops);
    }
  }

  // All unspent outputs of a reachable state together are within the cap.
  lemma StateTotal(p: Params, t: BlockTree, totals: Totals)
    requires p.Valid() && TreeInv(p, t) && ApplyChain(p, ActiveChain(p, t)) == Ok(totals)
    ensures Total(totals.utxos) <= SUPPLY_CAP < TWO_64
  {
    hide TreeInv, ApplyChain, ActiveChain, ActivePath, Total, Burned, RewardSum, LedgerInv;
    ActiveNumbered(p, t);
    SupplyExact(p, ActiveChain(p, t));
    RewardSumFits(|ActiveChain(p, t)|);
  }
}
