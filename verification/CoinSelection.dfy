/** Choosing the outputs that pay for a transfer: largest first, until they cover it. */
module CoinSelection {
  import opened MempoolIndex
  import opened Words
  import opened Wrappers
  import BlockGraph

  /** An unspent output; a coinbase output remembers the height it was created at. */
  datatype Output = Output(owner: nat, asset: Option<nat>, value: u64, coinbaseHeight: Option<nat>)

  datatype Coin = Coin(op: OutPoint, value: u64)

  datatype PrepareError = ZeroAmount | InsufficientFunds

  /** What a prepared transfer spends and gives back. */
  datatype Prepared = Prepared(inputs: seq<Coin>, total: u64, change: u64)

  datatype Wanted = Wanted(owner: nat, asset: Option<nat>, matureBefore: nat)
  {
    predicate Takes(out: Output) {
      && out.owner == owner && out.asset == asset
      && (out.coinbaseHeight.Some? ==> out.coinbaseHeight.value <= matureBefore)
    }
  }

  function Spendable(utxo: map<OutPoint, Output>, w: Wanted): (r: set<OutPoint>)
    ensures forall op :: op in r <==>
      && op in utxo && utxo[op].owner == w.owner && utxo[op].asset == w.asset
      && match utxo[op].coinbaseHeight
        case None => true
        case Some(height) => height <= w.matureBefore
  {
    set op | op in utxo && w.Takes(utxo[op])
  }

  ghost function Worth(utxo: map<OutPoint, Output>, s: set<OutPoint>): nat
    requires s <= utxo.Keys
  {
    if s == {} then 0
    else
      var op :| op in s;
      Worth(utxo, s - {op}) + utxo[op].value as nat
  }

  lemma {:induction false} WorthLess(utxo: map<OutPoint, Output>, s: set<OutPoint>, op: OutPoint)
    requires s <= utxo.Keys && op in s
    ensures Worth(utxo, s) == Worth(utxo, s - {op}) + utxo[op].value as nat
  {
    var x :| x in s && Worth(utxo, s) == Worth(utxo, s - {x}) + utxo[x].value as nat;
    if x != op {
      WorthLess(utxo, s - {x}, op);
      WorthLess(utxo, s - {op}, x);
      assert s - {x} - {op} == s - {op} - {x};
    }
  }

  // ---------------------------------------------------------------------- sorting

  predicate Before(a: OutPoint, b: OutPoint) {
    a.tx < b.tx || (a.tx == b.tx && a.slot < b.slot)
  }

  /** Larger value first, then smaller outpoint. */
  predicate Precedes(a: Coin, b: Coin) {
    a.value > b.value || (a.value == b.value && Before(a.op, b.op))
  }

  function InsertCoin(s: seq<Coin>, c: Coin): seq<Coin> {
    if s == [] || Precedes(c, s[0]) then [c] + s else [s[0]] + InsertCoin(s[1..], c)
  }

  function Sorted(s: seq<Coin>): seq<Coin> {
    if s == [] then [] else InsertCoin(Sorted(s[..|s| - 1]), s[|s| - 1])
  }

  ghost predicate Ranked(s: seq<Coin>) {
    forall i, j :: 0 <= i < j < |s| ==> Precedes(s[i], s[j])
  }

  ghost predicate Falling(s: seq<Coin>) {
    forall i, j :: 0 <= i < j < |s| ==> s[j].value <= s[i].value
  }

  lemma RankedFalls(s: seq<Coin>)
    requires Ranked(s)
    ensures Falling(s)
  {
    forall i, j | 0 <= i < j < |s|
      ensures s[j].value <= s[i].value
    {
      assert Precedes(s[i], s[j]);
    }
  }

  /** On coins at different outpoints the rank is a strict total order. */
  lemma RankIsTotal(a: Coin, b: Coin, c: Coin)
    ensures a.op != b.op ==> Precedes(a, b) || Precedes(b, a)
    ensures Precedes(a, b) && Precedes(b, c) ==> Precedes(a, c)
  {
  }

  /** `s` lists the coins at `ops`, each once. */
  ghost predicate Covers(utxo: map<OutPoint, Output>, s: seq<Coin>, ops: set<OutPoint>) {
    && (forall c :: c in s ==> c.op in ops && c.op in utxo && c.value == utxo[c.op].value)
    && (forall op :: op in ops ==> op in utxo && Coin(op, utxo[op].value) in s)
    && |s| == |ops|
  }

  lemma {:induction false} InsertCoinFacts(s: seq<Coin>, c: Coin)
    requires Ranked(s) && forall x :: x in s ==> x.op != c.op
    ensures Ranked(InsertCoin(s, c)) && |InsertCoin(s, c)| == |s| + 1
    ensures forall x :: x in InsertCoin(s, c) <==> x in s || x == c
  {
    hide Precedes;
    if s != [] {
      assert s == [s[0]] + s[1..];
      RankIsTotal(c, s[0], s[0]);
      if Precedes(c, s[0]) {
        forall j | 0 <= j < |s|
          ensures Precedes(c, s[j])
        {
          RankIsTotal(c, s[0], s[j]);
        }
      } else {
        assert forall x :: x in s[1..] ==> x in s;
        InsertCoinFacts(s[1..], c);
        var rest := InsertCoin(s[1..], c);
        forall j | 0 <= j < |rest|
          ensures Precedes(s[0], rest[j])
        {
          assert rest[j] in rest;
          if rest[j] in s[1..] {
            var i :| 0 <= i < |s[1..]| && s[1..][i] == rest[j];
            assert s[i + 1] == rest[j];
          } else {
            assert s[0] in s;
          }
        }
      }
    }
  }

  lemma {:induction false} SortedFacts(s: seq<Coin>)
    requires forall i, j :: 0 <= i < j < |s| ==> s[i].op != s[j].op
    ensures Ranked(Sorted(s)) && |Sorted(s)| == |s| && forall x :: x in Sorted(s) <==> x in s
  {
    if s != [] {
      var front, last := s[..|s| - 1], s[|s| - 1];
      assert s == front + [last];
      SortedFacts(front);
      forall x | x in Sorted(front)
        ensures x.op != last.op
      {
        var i :| 0 <= i < |front| && front[i] == x;
        assert s[i] == x;
      }
      InsertCoinFacts(Sorted(front), last);
    }
  }

  // ------------------------------------------------------------- greedy is shortest

  function Value(s: seq<Coin>): nat {
    if s == [] then 0 else Value(s[..|s| - 1]) + s[|s| - 1].value as nat
  }

  lemma ValueNext(s: seq<Coin>, n: nat)
    requires n < |s|
    ensures Value(s[..n + 1]) == Value(s[..n]) + s[n].value as nat
  {
    assert s[..n + 1][..n] == s[..n];
  }

  lemma {:induction false} ValueGrows(s: seq<Coin>, n: nat, m: nat)
    requires n <= m <= |s|
    ensures Value(s[..n]) <= Value(s[..m])
    decreases m - n
  {
    if n < m {
      ValueNext(s, n);
      ValueGrows(s, n + 1, m);
    }
  }

  /** The last coin of a covering list. */
  lemma CoversFront(utxo: map<OutPoint, Output>, s: seq<Coin>, ops: set<OutPoint>) returns (last: OutPoint)
    requires Covers(utxo, s, ops) && s != []
    ensures last == s[|s| - 1].op && last in ops && Covers(utxo, s[..|s| - 1], ops - {last})
    ensures utxo[last].value == s[|s| - 1].value
  {
    var front := s[..|s| - 1];
    last := s[|s| - 1].op;
    assert s == front + [s[|s| - 1]] && s[|s| - 1] in s;
    CoverOnce(utxo, s, ops, |s| - 1);
    forall c | c in front
      ensures c.op != last
    {
      var i :| 0 <= i < |front| && front[i] == c;
      CoverOnce(utxo, s, ops, i);
      CoverDistinct(utxo, s, ops, i, |s| - 1);
    }
  }

  lemma CoverOnce(utxo: map<OutPoint, Output>, s: seq<Coin>, ops: set<OutPoint>, i: nat)
    requires Covers(utxo, s, ops) && i < |s|
    ensures s[i].op in ops && s[i].op in utxo && s[i].value == utxo[s[i].op].value
  {
    assert s[i] in s;
  }

  function OpsOf(s: seq<Coin>): set<OutPoint> {
    set c | c in s :: c.op
  }

  lemma {:induction false} OpsFew(s: seq<Coin>)
    ensures |OpsOf(s)| <= |s|
    ensures |OpsOf(s)| == |s| ==> forall i, j :: 0 <= i < j < |s| ==> s[i].op != s[j].op
  {
    if s != [] {
      var front, last := s[..|s| - 1], s[|s| - 1];
      assert s == front + [last];
      OpsFew(front);
      assert OpsOf(s) == OpsOf(front) + {last.op};
      forall i | 0 <= i < |front|
        ensures front[i].op in OpsOf(front)
      {
        assert front[i] in front;
      }
    }
  }

  lemma CoverDistinct(utxo: map<OutPoint, Output>, s: seq<Coin>, ops: set<OutPoint>, i: nat, j: nat)
    requires Covers(utxo, s, ops) && i < j < |s|
    ensures s[i].op != s[j].op
  {
    assert OpsOf(s) == ops;
    OpsFew(s);
  }

  lemma {:induction false} CoveredWorth(utxo: map<OutPoint, Output>, s: seq<Coin>, ops: set<OutPoint>)
    requires Covers(utxo, s, ops) && ops <= utxo.Keys
    ensures Value(s) == Worth(utxo, ops)
  {
    hide Covers;
    if s == [] {
      NoneCovered(utxo, ops);
    } else {
      var last := CoversFront(utxo, s, ops);
      WorthLess(utxo, ops, last);
      CoveredWorth(utxo, s[..|s| - 1], ops - {last});
    }
  }

  lemma NoneCovered(utxo: map<OutPoint, Output>, ops: set<OutPoint>)
    requires Covers(utxo, [], ops)
    ensures ops == {}
  {
  }

  /** The value of the first `n` coins. */
  ghost function Top(s: seq<Coin>, n: nat): nat
    requires n <= |s|
  {
    Value(s[..n])
  }

  lemma TopOfFront(s: seq<Coin>, m: nat)
    requires m < |s|
    ensures Top(s[..|s| - 1], m) == Top(s, m) && Top(s, m + 1) == Top(s, m) + s[m].value as nat
  {
    assert s[..|s| - 1][..m] == s[..m];
    ValueNext(s, m);
  }

  /** No `n` of the coins are worth more than the `n` largest. */
  lemma {:induction false} LargestAreWorthMost(
      utxo: map<OutPoint, Output>, s: seq<Coin>, ops: set<OutPoint>, chosen: set<OutPoint>)
    requires Covers(utxo, s, ops) && Falling(s) && ops <= utxo.Keys && chosen <= ops
    ensures |chosen| <= |s| && Worth(utxo, chosen) <= Top(s, |chosen|)
    decreases |s|
  {
    hide Covers, Falling, Worth, Top;
    CoverSize(utxo, s, ops, chosen);
    if s == [] {
      NoneCovered(utxo, ops);
      NothingWorth(utxo, chosen);
    } else {
      var last := CoversFront(utxo, s, ops);
      var m := |chosen - {last}|;
      Without(chosen, ops, last);
      FallingFront(s, |chosen|);
      LargestAreWorthMost(utxo, s[..|s| - 1], ops - {last}, chosen - {last});
      TopOfFront(s, m);
      if last in chosen {
        WorthLess(utxo, chosen, last);
      } else {
        assert chosen - {last} == chosen;
      }
    }
  }

  lemma Without(chosen: set<OutPoint>, ops: set<OutPoint>, last: OutPoint)
    requires chosen <= ops
    ensures if last in chosen then |chosen - {last}| == |chosen| - 1 else chosen - {last} == chosen
    ensures chosen - {last} <= ops - {last}
  {
  }

  lemma NothingWorth(utxo: map<OutPoint, Output>, chosen: set<OutPoint>)
    requires chosen <= {}
    ensures chosen <= utxo.Keys && Worth(utxo, chosen) == 0
  {
  }

  lemma FallingFront(s: seq<Coin>, m: nat)
    requires Falling(s) && s != [] && m <= |s|
    ensures Falling(s[..|s| - 1]) && (0 < m ==> s[|s| - 1].value <= s[m - 1].value)
  {
  }

  lemma CoverSize(utxo: map<OutPoint, Output>, s: seq<Coin>, ops: set<OutPoint>, chosen: set<OutPoint>)
    requires Covers(utxo, s, ops) && chosen <= ops
    ensures |chosen| <= |s|
  {
    BlockGraph.SubsetSize(chosen, ops);
  }

  // -------------------------------------------------------------------- preparing

  lemma CoversNothing(utxo: map<OutPoint, Output>)
    ensures Covers(utxo, [], {})
  {
  }

  lemma CoversOneMore(utxo: map<OutPoint, Output>, s: seq<Coin>, ops: set<OutPoint>, op: OutPoint)
    requires Covers(utxo, s, ops) && op in utxo && op !in ops
    ensures Covers(utxo, s + [Coin(op, utxo[op].value)], ops + {op})
  {
    var s' := s + [Coin(op, utxo[op].value)];
    assert forall c :: c in s' <==> c in s || c == Coin(op, utxo[op].value);
  }

  /** The spendable coins, in no particular order. */
  method Collect(utxo: map<OutPoint, Output>, w: Wanted) returns (owned: seq<Coin>)
    ensures Covers(utxo, owned, Spendable(utxo, w))
  {
    SpendableKeys(utxo, w);
    hide Covers, Spendable;
    owned := [];
    var todo := Spendable(utxo, w);
    ghost var done: set<OutPoint> := {};
    CoversNothing(utxo);
    while todo != {}
      invariant todo + done == Spendable(utxo, w) && todo !! done && Covers(utxo, owned, done)
      decreases todo
    {
      var op :| op in todo;
      todo := todo - {op};
      CoversOneMore(utxo, owned, done, op);
      done := done + {op};
      owned := owned + [Coin(op, utxo[op].value)];
    }
    assert done == Spendable(utxo, w);
  }

  /** Select coins for `amount` and `fee`, or say there are not enough. */
  method PrepareTransfer(utxo: map<OutPoint, Output>, w: Wanted, amount: u64, fee: u64)
    returns (r: Result<Prepared, PrepareError>)
    ensures amount == 0 <==> r == Err(ZeroAmount)
    ensures r == Err(InsufficientFunds) <==>
      amount != 0 && (amount as nat + fee as nat > U64_MAX as nat ||
                      Worth(utxo, Spendable(utxo, w)) < amount as nat + fee as nat)
    ensures r.Ok? ==> Paid(utxo, w, amount, fee, r.value)
  {
    hide Covers, Falling, Ranked, Worth, Spendable, Value, Sorted, Paid;
    if amount == 0 {
      return Err(ZeroAmount);
    }
    if amount > U64_MAX - fee {
      return Err(InsufficientFunds);
    }
    var need := amount + fee;
    var owned := Collect(utxo, w);
    ghost var ops := Spendable(utxo, w);
    SortedCovers(utxo, owned, ops);
    owned := Sorted(owned);
    SpendableKeys(utxo, w);
    CoveredWorth(utxo, owned, ops);
    var selected, total := Accumulate(owned, need);
    assert owned[..|owned|] == owned;
    if total < need {
      return Err(InsufficientFunds);
    }
    ValueGrows(owned, |selected|, |owned|);
    r := Ok(Prepared(selected, total, total - need));
    GreedyPays(utxo, w, amount, fee, owned, r.value);
  }

  /** Take coins in order until their saturating sum reaches `need`. */
  method Accumulate(owned: seq<Coin>, need: u64) returns (selected: seq<Coin>, total: u64)
    ensures |selected| <= |owned| && selected == owned[..|selected|] && total as nat == Saturated(Value(selected))
    ensures total < need ==> selected == owned
    ensures selected != [] ==> Value(selected[..|selected| - 1]) < need as nat || need == 0
  {
    hide Value;
    EmptyValue();
    selected, total := [], 0;
    for i := 0 to |owned|
      invariant |selected| == i && selected == owned[..i] && total as nat == Saturated(Value(selected))
      invariant i > 0 ==> total < need
      invariant selected != [] ==> Value(selected[..|selected| - 1]) < need as nat || need == 0
    {
      ghost var before := selected;
      selected := selected + [owned[i]];
      assert selected[..i] == before;
      TakesOneMore(before, owned[i]);
      total := SaturatingAdd(total, owned[i].value);
      if total >= need {
        return;
      }
    }
  }

  lemma EmptyValue()
    ensures Value([]) == 0
  {
  }

  lemma TakesOneMore(s: seq<Coin>, c: Coin)
    ensures Value(s + [c]) == Value(s) + c.value as nat
    ensures Saturated(Value(s + [c])) == SaturatingAdd(Saturated(Value(s)) as u64, c.value) as nat
  {
    assert (s + [c])[..|s|] == s;
  }

  function Saturated(n: nat): nat {
    if n <= U64_MAX as nat then n else U64_MAX as nat
  }

  lemma SpendableKeys(utxo: map<OutPoint, Output>, w: Wanted)
    ensures Spendable(utxo, w) <= utxo.Keys
  {
  }

  lemma SortedCovers(utxo: map<OutPoint, Output>, s: seq<Coin>, ops: set<OutPoint>)
    requires Covers(utxo, s, ops)
    ensures Covers(utxo, Sorted(s), ops) && Ranked(Sorted(s)) && Falling(Sorted(s))
  {
    forall i, j | 0 <= i < j < |s|
      ensures s[i].op != s[j].op
    {
      CoverDistinct(utxo, s, ops, i, j);
    }
    SortedFacts(s);
    RankedFalls(Sorted(s));
  }

  /** Every input is a different spendable coin; the inputs are worth the amount, the fee
      and the change, exactly, unless their sum does not fit a machine word; and nothing
      that covers the transfer uses fewer. */
  ghost predicate Paid(utxo: map<OutPoint, Output>, w: Wanted, amount: u64, fee: u64, p: Prepared) {
    && OpsOf(p.inputs) <= Spendable(utxo, w) && |OpsOf(p.inputs)| == |p.inputs|
    && (forall c :: c in p.inputs ==> c.op in utxo && c.value == utxo[c.op].value)
    && Value(p.inputs) >= amount as nat + fee as nat
    && p.total as nat == Saturated(Value(p.inputs)) && p.change as nat == p.total as nat - (amount as nat + fee as nat)
    && (Value(p.inputs) == amount as nat + fee as nat + p.change as nat <==> Value(p.inputs) <= U64_MAX as nat)
    && Foremost(utxo, Spendable(utxo, w), p.inputs)
    && (forall owned :: Covers(utxo, owned, Spendable(utxo, w)) && Ranked(owned) ==>
      p.inputs == CoveringFront(owned, amount as nat + fee as nat))
    && forall chosen :: chosen <= Spendable(utxo, w) && Sufficient(utxo, chosen, amount, fee) ==>
      |p.inputs| <= |chosen|
  }

  /** The inputs are in rank order and come before every coin left out: so which coins
      are spent depends on nothing but the coins. */
  ghost predicate Foremost(utxo: map<OutPoint, Output>, ops: set<OutPoint>, inputs: seq<Coin>) {
    && Ranked(inputs)
    && (forall i, j :: 0 <= i < j < |inputs| ==> Ahead(inputs[i], inputs[j].op, inputs[j].value))
    && forall i, op :: 0 <= i < |inputs| && op in ops && op !in OpsOf(inputs) ==>
      op in utxo && Ahead(inputs[i], op, utxo[op].value)
  }

  /** Worth more, or as much and of the earlier outpoint: by transaction, then by slot. */
  ghost predicate Ahead(c: Coin, op: OutPoint, value: u64) {
    && value <= c.value
    && (value == c.value ==> c.op.tx <= op.tx && (c.op.tx == op.tx ==> c.op.slot < op.slot))
  }

  lemma PrefixIsForemost(utxo: map<OutPoint, Output>, owned: seq<Coin>, ops: set<OutPoint>, n: nat)
    requires Covers(utxo, owned, ops) && Ranked(owned) && n <= |owned|
    ensures Foremost(utxo, ops, owned[..n])
  {
    forall i, j | 0 <= i < j < n
      ensures Ahead(owned[i], owned[j].op, owned[j].value)
    {
      assert Precedes(owned[i], owned[j]);
    }
    hide Precedes;
    forall i, op | 0 <= i < n && op in ops && op !in OpsOf(owned[..n])
      ensures op in utxo && Ahead(owned[i], op, utxo[op].value)
    {
      var c := Coin(op, utxo[op].value);
      assert c in owned;
      assert forall m :: 0 <= m < n ==> owned[..n][m] == owned[m] && owned[..n][m] in owned[..n];
      var j :| 0 <= j < |owned| && owned[j] == c;
      assert Precedes(owned[i], c);
      AheadOf(owned[i], c);
    }
  }

  lemma AheadOf(a: Coin, b: Coin)
    requires Precedes(a, b)
    ensures Ahead(a, b.op, b.value)
  {
  }

  ghost predicate Sufficient(utxo: map<OutPoint, Output>, chosen: set<OutPoint>, amount: u64, fee: u64) {
    chosen <= utxo.Keys && Worth(utxo, chosen) >= amount as nat + fee as nat
  }

  lemma PrefixOps(utxo: map<OutPoint, Output>, owned: seq<Coin>, ops: set<OutPoint>, n: nat)
    requires Covers(utxo, owned, ops) && n <= |owned|
    ensures OpsOf(owned[..n]) <= ops && |OpsOf(owned[..n])| == n
    ensures forall c :: c in owned[..n] ==> c.op in utxo && c.value == utxo[c.op].value
    decreases n
  {
    if n > 0 {
      PrefixOps(utxo, owned, ops, n - 1);
      assert owned[..n] == owned[..n - 1] + [owned[n - 1]];
      CoverOnce(utxo, owned, ops, n - 1);
      assert OpsOf(owned[..n]) == OpsOf(owned[..n - 1]) + {owned[n - 1].op};
      forall c | c in owned[..n - 1]
        ensures c.op != owned[n - 1].op
      {
        var i :| 0 <= i < n - 1 && owned[..n - 1][i] == c;
        CoverDistinct(utxo, owned, ops, i, n - 1);
      }
    }
  }

  lemma GreedyPays(
      utxo: map<OutPoint, Output>, w: Wanted, amount: u64, fee: u64, owned: seq<Coin>, p: Prepared)
    requires Covers(utxo, owned, Spendable(utxo, w)) && Falling(owned) && Ranked(owned)
    requires |p.inputs| <= |owned| && p.inputs == owned[..|p.inputs|] && amount != 0
    requires amount as nat + fee as nat <= p.total as nat == Saturated(Value(p.inputs))
    requires p.change as nat == p.total as nat - (amount as nat + fee as nat)
    requires p.inputs != [] ==> Value(p.inputs[..|p.inputs| - 1]) < amount as nat + fee as nat
    ensures Paid(utxo, w, amount, fee, p)
  {
    hide Covers, Falling, Worth, Spendable, Value, Ranked, Foremost, Precedes, OpsOf, Sufficient;
    var ops, n := Spendable(utxo, w), |p.inputs|;
    SpendableKeys(utxo, w);
    PrefixOps(utxo, owned, ops, n);
    PrefixIsForemost(utxo, owned, ops, n);
    assert n > 0 ==> p.inputs[..n - 1] == owned[..n - 1];
    CoverLengthIs(owned, amount as nat + fee as nat, n, 0);
    forall other | Covers(utxo, other, ops) && Ranked(other)
      ensures p.inputs == CoveringFront(other, amount as nat + fee as nat)
    {
      RankedUnique(utxo, owned, other, ops);
    }
    forall chosen | chosen <= ops && Sufficient(utxo, chosen, amount, fee)
      ensures n <= |chosen|
    {
      if |chosen| < n {
        FewerFallShort(utxo, owned, ops, chosen, n);
        IsSufficient(utxo, chosen, amount, fee);
      }
    }
  }

  lemma IsSufficient(utxo: map<OutPoint, Output>, chosen: set<OutPoint>, amount: u64, fee: u64)
    requires Sufficient(utxo, chosen, amount, fee)
    ensures chosen <= utxo.Keys && Worth(utxo, chosen) >= amount as nat + fee as nat
  {
  }

  lemma FewerFallShort(
      utxo: map<OutPoint, Output>, owned: seq<Coin>, ops: set<OutPoint>, chosen: set<OutPoint>, n: nat)
    requires Covers(utxo, owned, ops) && Falling(owned) && ops <= utxo.Keys && chosen <= ops
    requires |chosen| < n <= |owned|
    ensures Worth(utxo, chosen) <= Value(owned[..n - 1])
  {
    hide Covers, Falling, Worth, Value;
    LargestAreWorthMost(utxo, owned, ops, chosen);
    ValueGrows(owned, |chosen|, n - 1);
  }

  // ------------------------------------------------------------ the shortest front

  /** How many leading coins it takes to reach `need`, given that fewer than `n` do not. */
  ghost function CoverLength(s: seq<Coin>, need: nat, n: nat): (m: nat)
    requires n <= |s|
    ensures n <= m <= |s|
    decreases |s| - n
  {
    if n == |s| || Value(s[..n]) >= need then n else CoverLength(s, need, n + 1)
  }

  /** The shortest front that reaches `need`; all coins when none does. */
  ghost function CoveringFront(s: seq<Coin>, need: nat): seq<Coin> {
    s[..CoverLength(s, need, 0)]
  }

  lemma {:induction false} CoverLengthIs(s: seq<Coin>, need: nat, n: nat, from: nat)
    requires from <= n <= |s| && (n == |s| || Value(s[..n]) >= need)
    requires n > 0 ==> Value(s[..n - 1]) < need
    ensures CoverLength(s, need, from) == n
    decreases n - from
  {
    hide Value;
    if from < n {
      ValueGrows(s, from, n - 1);
      CoverLengthIs(s, need, n, from + 1);
    }
  }

  lemma LastIsRankedLast(utxo: map<OutPoint, Output>, s: seq<Coin>, ops: set<OutPoint>, c: Coin)
    requires Covers(utxo, s, ops) && Ranked(s) && s != [] && c.op in ops && c.op in utxo
    requires c.value == utxo[c.op].value
    ensures c == s[|s| - 1] || Precedes(c, s[|s| - 1])
  {
    assert Coin(c.op, utxo[c.op].value) in s;
    var i :| 0 <= i < |s| && s[i] == c;
  }

  lemma NotBothWays(a: Coin, b: Coin)
    ensures !(Precedes(a, b) && Precedes(b, a))
  {
  }

  /** A set of coins has only one ranking. */
  lemma {:induction false} RankedUnique(
      utxo: map<OutPoint, Output>, s: seq<Coin>, r: seq<Coin>, ops: set<OutPoint>)
    requires Covers(utxo, s, ops) && Ranked(s) && Covers(utxo, r, ops) && Ranked(r)
    ensures s == r
    decreases |s|
  {
    assert |s| == |r|;
    if s != [] {
      var a := CoversFront(utxo, s, ops);
      var b := CoversFront(utxo, r, ops);
      var x, y := s[|s| - 1], r[|r| - 1];
      LastIsRankedLast(utxo, s, ops, y);
      LastIsRankedLast(utxo, r, ops, x);
      NotBothWays(x, y);
      RankedFront(s);
      RankedFront(r);
      hide Covers, Ranked, Precedes;
      RankedUnique(utxo, s[..|s| - 1], r[..|r| - 1], ops - {a});
      assert s == s[..|s| - 1] + [x] && r == r[..|r| - 1] + [y];
    }
  }

  lemma RankedFront(s: seq<Coin>)
    requires Ranked(s) && s != []
    ensures Ranked(s[..|s| - 1])
  {
    hide Precedes;
  }

  // ------------------------------------------------------------ when it pays exactly

  ghost predicate PaysExactly(amount: u64, fee: u64, p: Prepared) {
    Value(p.inputs) == amount as nat + fee as nat + p.change as nat
  }

  /** Amount, fee and change add up to the inputs if and only if the shortest covering front
      of the ranked coins is worth at most a machine word. */
  lemma PaysExactlyIff(
      utxo: map<OutPoint, Output>, w: Wanted, amount: u64, fee: u64, p: Prepared, owned: seq<Coin>)
    requires Paid(utxo, w, amount, fee, p) && Covers(utxo, owned, Spendable(utxo, w)) && Ranked(owned)
    ensures PaysExactly(amount, fee, p) <==>
      Value(CoveringFront(owned, amount as nat + fee as nat)) <= U64_MAX as nat
  {
    hide Covers, Ranked, Spendable, Foremost, Value, CoveringFront;
  }

  lemma {:induction false} WorthGrows(utxo: map<OutPoint, Output>, a: set<OutPoint>, b: set<OutPoint>)
    requires a <= b <= utxo.Keys
    ensures Worth(utxo, a) <= Worth(utxo, b)
    decreases b
  {
    if a != b {
      var x :| x in b && x !in a;
      WorthLess(utxo, b, x);
      WorthGrows(utxo, a, b - {x});
    }
  }

  /** In particular, whenever all the mature coins together are worth at most a word. */
  lemma FundedPaysExactly(utxo: map<OutPoint, Output>, w: Wanted, amount: u64, fee: u64, p: Prepared)
    requires Paid(utxo, w, amount, fee, p) && Worth(utxo, Spendable(utxo, w)) <= U64_MAX as nat
    ensures PaysExactly(amount, fee, p)
  {
    SpendableKeys(utxo, w);
    InputsCovered(utxo, p.inputs);
    hide Worth, Value, Covers, Foremost, Spendable;
    CoveredWorth(utxo, p.inputs, OpsOf(p.inputs));
    WorthGrows(utxo, OpsOf(p.inputs), Spendable(utxo, w));
  }

  lemma InputsCovered(utxo: map<OutPoint, Output>, inputs: seq<Coin>)
    requires |OpsOf(inputs)| == |inputs|
    requires forall c :: c in inputs ==> c.op in utxo && c.value == utxo[c.op].value
    ensures Covers(utxo, inputs, OpsOf(inputs))
  {
    forall op | op in OpsOf(inputs)
      ensures op in utxo && Coin(op, utxo[op].value) in inputs
    {
      var c :| c in inputs && c.op == op;
      assert c == Coin(op, utxo[op].value);
    }
  }

  const BIG: u64 := 0xC000_0000_0000_0000
  const ASKED: u64 := 0xD000_0000_0000_0000

  /** Two large coins: their sum saturates, and the change falls short of it. */
  lemma OverflowLosesChange(a: OutPoint, b: OutPoint, p: Prepared)
    requires a != b
    requires Paid(
      map[a := Output(0, None, BIG, None), b := Output(0, None, BIG, None)], Wanted(0, None, 0), ASKED, 0, p)
    ensures !PaysExactly(ASKED, 0, p) && Value(p.inputs) == 2 * BIG as nat && p.change == U64_MAX - ASKED
  {
    var utxo := map[a := Output(0, None, BIG, None), b := Output(0, None, BIG, None)];
    assert Spendable(utxo, Wanted(0, None, 0)) == {a, b};
    BlockGraph.SubsetSize(OpsOf(p.inputs), {a, b});
    assert |{a, b}| == 2;
    assert forall i :: 0 <= i < |p.inputs| ==> p.inputs[i] in p.inputs && p.inputs[i].value == BIG;
    hide Foremost, Covers, Worth, CoveringFront;
    SameValues(p.inputs, BIG);
  }

  lemma {:induction false} SameValues(s: seq<Coin>, v: u64)
    requires forall i :: 0 <= i < |s| ==> s[i].value == v
    ensures Value(s) == |s| * v as nat
  {
    if s != [] {
      SameValues(s[..|s| - 1], v);
    }
  }
}
