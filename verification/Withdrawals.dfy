/** The withdrawal sweep over the validator registry. */
module Withdrawals {
  const MAX_EFFECTIVE_BALANCE: nat := 32_000_000_000
  const MAX_WITHDRAWALS_PER_PAYLOAD: nat := 16
  const MAX_VALIDATORS_PER_WITHDRAWALS_SWEEP: nat := 16384

  datatype Account = Account(eth1Credential: bool, address: nat, withdrawableEpoch: nat, effectiveBalance: nat)

  datatype Withdrawal = Withdrawal(index: nat, validator: nat, address: nat, amount: nat)

  datatype Fields = Fields(epoch: nat, accounts: seq<Account>, balances: seq<nat>, nextIndex: nat, nextValidator: nat)

  /** A registry that the sweep can index: not empty, with a balance for every account. */
  type Registry = f: Fields | |f.balances| == |f.accounts| && f.nextValidator < |f.accounts|
    witness Fields(0, [Account(false, 0, 0, 0)], [0], 0, 0)

  predicate FullyWithdrawable(a: Account, balance: nat, epoch: nat) {
    a.eth1Credential && a.withdrawableEpoch <= epoch && balance > 0
  }

  predicate PartiallyWithdrawable(a: Account, balance: nat) {
    a.eth1Credential && a.effectiveBalance == MAX_EFFECTIVE_BALANCE && balance > MAX_EFFECTIVE_BALANCE
  }

  /** The amount due to a validator; zero means no withdrawal. */
  function Due(s: Registry, v: nat): (amount: nat)
    requires v < |s.accounts|
    ensures amount <= s.balances[v]
  {
    if FullyWithdrawable(s.accounts[v], s.balances[v], s.epoch) then s.balances[v]
    else if PartiallyWithdrawable(s.accounts[v], s.balances[v]) then s.balances[v] - MAX_EFFECTIVE_BALANCE
    else 0
  }

  /** The validator that the sweep examines in step `m`, going round once at most. */
  function Visited(s: Registry, m: nat): (v: nat)
    requires m <= |s.accounts|
    ensures v < |s.accounts|
  {
    var v := s.nextValidator + m;
    if v < |s.accounts| then v else v - |s.accounts|
  }

  /** The withdrawals among the first `m` validators of the sweep. */
  function Swept(s: Registry, m: nat): (ws: seq<Withdrawal>)
    requires m <= |s.accounts|
    ensures |ws| <= m
  {
    if m == 0 then []
    else
      var before, v := Swept(s, m - 1), Visited(s, m - 1);
      if Due(s, v) == 0 then before
      else before + [Withdrawal(s.nextIndex + |before|, v, s.accounts[v].address, Due(s, v))]
  }

  function Bound(s: Registry): (bound: nat)
    ensures 0 < bound <= |s.accounts|
  {
    if |s.accounts| < MAX_VALIDATORS_PER_WITHDRAWALS_SWEEP then |s.accounts| else MAX_VALIDATORS_PER_WITHDRAWALS_SWEEP
  }

  /** `m` validators examined is where the sweep stops: at the bound, or as soon as the payload is full. */
  ghost predicate Stops(s: Registry, m: nat) {
    && m <= Bound(s)
    && |Swept(s, m)| <= MAX_WITHDRAWALS_PER_PAYLOAD
    && (m == Bound(s) || |Swept(s, m)| == MAX_WITHDRAWALS_PER_PAYLOAD)
    && (|Swept(s, m)| == MAX_WITHDRAWALS_PER_PAYLOAD ==> m > 0 && |Swept(s, m - 1)| < MAX_WITHDRAWALS_PER_PAYLOAD)
  }

  lemma {:induction false} SweptGrows(s: Registry, m: nat, k: nat)
    requires m <= k <= |s.accounts|
    ensures |Swept(s, m)| <= |Swept(s, k)|
    decreases k
  {
    if m < k { SweptGrows(s, m, k - 1); }
  }

  lemma StopsOnce(s: Registry, m: nat, k: nat)
    requires Stops(s, m) && Stops(s, k)
    ensures m == k
  {
    if m < k { SweptGrows(s, m, k - 1); }
    if k < m { SweptGrows(s, k, m - 1); }
  }

  /** `get_expected_withdrawals`: the loop, with the number of validators it examined. */
  method ExpectedWithdrawals(s: Registry) returns (ws: seq<Withdrawal>, examined: nat)
    ensures Stops(s, examined) && ws == Swept(s, examined)
  {
    var withdrawalIndex, v := s.nextIndex, s.nextValidator;
    ws, examined := [], 0;
    var n := |s.accounts|;
    var m := 0;
    while m < Bound(s)
      invariant 0 <= m <= Bound(s) && v == Visited(s, m)
      invariant ws == Swept(s, m) && withdrawalIndex == s.nextIndex + |ws|
      invariant |ws| < MAX_WITHDRAWALS_PER_PAYLOAD
    {
      var account, balance := s.accounts[v], s.balances[v];
      if FullyWithdrawable(account, balance, s.epoch) {
        ws := ws + [Withdrawal(withdrawalIndex, v, account.address, balance)];
        withdrawalIndex := withdrawalIndex + 1;
      } else if PartiallyWithdrawable(account, balance) {
        ws := ws + [Withdrawal(withdrawalIndex, v, account.address, balance - MAX_EFFECTIVE_BALANCE)];
        withdrawalIndex := withdrawalIndex + 1;
      }
      if |ws| == MAX_WITHDRAWALS_PER_PAYLOAD {
        examined := m + 1;
        return;
      }
      NextIsRemainder(v, n);
      v := (v + 1) % n;
      m := m + 1;
    }
    examined := m;
  }

  // The source steps to the next validator with a remainder.
  lemma NextIsRemainder(v: nat, n: nat)
    requires v < n
    ensures (v + 1) % n == if v + 1 < n then v + 1 else 0
  {
    if v + 1 == n { assert v + 1 == 1 * n + 0; }
  }

  // ---------- one payload ----------

  lemma {:induction false} SweptNumbers(s: Registry, m: nat)
    requires m <= |s.accounts|
    ensures forall i :: 0 <= i < |Swept(s, m)| ==>
      var w := Swept(s, m)[i];
      && w.index == s.nextIndex + i
      && w.validator < |s.accounts| && 0 < w.amount == Due(s, w.validator)
      && exists k :: 0 <= k < m && w.validator == Visited(s, k)
    decreases m
  {
    if m > 0 {
      SweptNumbers(s, m - 1);
      var ws, before := Swept(s, m), Swept(s, m - 1);
      forall i | 0 <= i < |ws|
        ensures exists k :: 0 <= k < m && ws[i].validator == Visited(s, k)
      {
        if i < |before| {
          var k :| 0 <= k < m - 1 && before[i].validator == Visited(s, k);
        } else {
          assert ws[i].validator == Visited(s, m - 1);
        }
      }
    }
  }

  lemma VisitedDistinct(s: Registry, k: nat, m: nat)
    requires k < m < |s.accounts|
    ensures Visited(s, k) != Visited(s, m)
  {
  }

  ghost predicate NamedOnce(ws: seq<Withdrawal>) {
    forall i, j :: 0 <= i < j < |ws| ==> ws[i].validator != ws[j].validator
  }

  // Whoever is visited next is not among those paid before.
  lemma NextNotNamed(s: Registry, m: nat, i: nat)
    requires m < |s.accounts| && i < |Swept(s, m)|
    ensures Swept(s, m)[i].validator != Visited(s, m)
  {
    SweptNumbers(s, m);
    var k :| 0 <= k < m && Swept(s, m)[i].validator == Visited(s, k);
    VisitedDistinct(s, k, m);
  }

  lemma NamedOnceMore(ws: seq<Withdrawal>, w: Withdrawal)
    requires NamedOnce(ws) && forall i :: 0 <= i < |ws| ==> ws[i].validator != w.validator
    ensures NamedOnce(ws + [w])
  {
  }

  /** A payload names a validator at most once. */
  lemma {:induction false} SweptNamesOnce(s: Registry, m: nat)
    requires m <= |s.accounts|
    ensures NamedOnce(Swept(s, m))
    decreases m
  {
    if m > 0 {
      SweptNamesOnce(s, m - 1);
      var before, ws := Swept(s, m - 1), Swept(s, m);
      if ws != before {
        forall i | 0 <= i < |before| ensures before[i].validator != Visited(s, m - 1) {
          NextNotNamed(s, m - 1, i);
        }
        NamedOnceMore(before, ws[|before|]);
      }
    }
  }

  // ---------- balances ----------

  function Total(balances: seq<nat>): nat {
    if balances == [] then 0 else Total(balances[..|balances| - 1]) + balances[|balances| - 1]
  }

  function Amounts(ws: seq<Withdrawal>): nat {
    if ws == [] then 0 else Amounts(ws[..|ws| - 1]) + ws[|ws| - 1].amount
  }

  /** `decrease_balance`, which stops at zero. */
  function Decreased(balances: seq<nat>, v: nat, delta: nat): (b: seq<nat>)
    requires v < |balances|
    ensures |b| == |balances|
  {
    balances[v := if delta > balances[v] then 0 else balances[v] - delta]
  }

  ghost predicate Payable(balances: seq<nat>, ws: seq<Withdrawal>) {
    forall i :: 0 <= i < |ws| ==> ws[i].validator < |balances|
  }

  function Paid(balances: seq<nat>, ws: seq<Withdrawal>): (b: seq<nat>)
    requires Payable(balances, ws)
    ensures |b| == |balances|
  {
    if ws == [] then balances
    else Decreased(Paid(balances, ws[..|ws| - 1]), ws[|ws| - 1].validator, ws[|ws| - 1].amount)
  }

  lemma {:induction false} TotalUpdate(balances: seq<nat>, v: nat, x: nat)
    requires v < |balances|
    ensures Total(balances[v := x]) + balances[v] == Total(balances) + x
  {
    var last := |balances| - 1;
    if v < last {
      TotalUpdate(balances[..last], v, x);
      assert balances[v := x][..last] == balances[..last][v := x];
    } else {
      assert balances[v := x][..last] == balances[..last];
    }
  }

  ghost predicate Covered(balances: seq<nat>, ws: seq<Withdrawal>) {
    forall i :: 0 <= i < |ws| ==> ws[i].validator < |balances| && ws[i].amount <= balances[ws[i].validator]
  }

  lemma {:induction false} PaidUntouched(balances: seq<nat>, ws: seq<Withdrawal>, v: nat)
    requires Payable(balances, ws) && v < |balances| && forall i :: 0 <= i < |ws| ==> ws[i].validator != v
    ensures Paid(balances, ws)[v] == balances[v]
  {
    if ws != [] { PaidUntouched(balances, ws[..|ws| - 1], v); }
  }

  /** No decrease saturates: each validator still has its old balance when its turn comes, and keeps the
      difference. */
  lemma {:induction false} PaidEach(balances: seq<nat>, ws: seq<Withdrawal>, i: nat)
    requires NamedOnce(ws) && Covered(balances, ws) && i < |ws|
    ensures Paid(balances, ws)[ws[i].validator] == balances[ws[i].validator] - ws[i].amount
  {
    var init, last := ws[..|ws| - 1], |ws| - 1;
    if i < last {
      PaidEach(balances, init, i);
    } else {
      PaidUntouched(balances, init, ws[last].validator);
    }
  }

  /** The total balance falls by exactly what is paid out. */
  lemma {:induction false} PaidExactly(balances: seq<nat>, ws: seq<Withdrawal>)
    requires NamedOnce(ws) && Covered(balances, ws)
    ensures Total(Paid(balances, ws)) + Amounts(ws) == Total(balances)
  {
    if ws != [] {
      var init, w := ws[..|ws| - 1], ws[|ws| - 1];
      PaidExactly(balances, init);
      PaidUntouched(balances, init, w.validator);
      TotalUpdate(Paid(balances, init), w.validator, balances[w.validator] - w.amount);
    }
  }

  // ---------- process_withdrawals ----------

  /** Where the next sweep starts after `m` examined validators. */
  function NextValidator(s: Registry, ws: seq<Withdrawal>): (v: nat)
    ensures v < |s.accounts|
  {
    if |ws| == MAX_WITHDRAWALS_PER_PAYLOAD then (ws[|ws| - 1].validator + 1) % |s.accounts|
    else (s.nextValidator + MAX_VALIDATORS_PER_WITHDRAWALS_SWEEP) % |s.accounts|
  }

  class BeaconRegistry {
    var epoch: nat
    var accounts: seq<Account>
    var balances: seq<nat>
    var nextIndex: nat
    var nextValidator: nat

    ghost predicate Valid()
      reads this
    {
      |balances| == |accounts| && nextValidator < |accounts|
    }

    function Value(): Registry
      requires Valid()
      reads this
    {
      Fields(epoch, accounts, balances, nextIndex, nextValidator)
    }

    constructor (s: Registry)
      ensures Valid() && Value() == s
    {
      epoch, accounts, balances, nextIndex, nextValidator := s.epoch, s.accounts, s.balances, s.nextIndex, s.nextValidator;
    }

    method PayAll(payload: seq<Withdrawal>)
      requires Payable(balances, payload)
      modifies this`balances
      ensures balances == Paid(old(balances), payload)
    {
      var i := 0;
      assert payload[..0] == [];
      while i < |payload|
        invariant 0 <= i <= |payload| && |balances| == |old(balances)|
        invariant Payable(old(balances), payload[..i]) && balances == Paid(old(balances), payload[..i])
      {
        var w := payload[i];
        assert payload[..i + 1][..i] == payload[..i];
        balances := balances[w.validator := if w.amount > balances[w.validator] then 0 else balances[w.validator] - w.amount];
        i := i + 1;
      }
      assert payload[..i] == payload;
    }

    method MoveCursors(expected: seq<Withdrawal>)
      requires Valid() && (expected != [] ==> expected[|expected| - 1].index + 1 == nextIndex + |expected|)
      modifies this`nextIndex, this`nextValidator
      ensures nextIndex == old(nextIndex) + |expected|
      ensures nextValidator == NextValidator(old(Value()), expected)
    {
      if |expected| != 0 {
        nextIndex := expected[|expected| - 1].index + 1;
      }
      if |expected| == MAX_WITHDRAWALS_PER_PAYLOAD {
        nextValidator := (expected[|expected| - 1].validator + 1) % |accounts|;
      } else {
        nextValidator := (nextValidator + MAX_VALIDATORS_PER_WITHDRAWALS_SWEEP) % |accounts|;
      }
    }

    /** `process_withdrawals`: rejects any payload but the expected one; pays it and moves both cursors. */
    method ProcessWithdrawals(payload: seq<Withdrawal>) returns (ok: bool, ghost examined: nat)
      requires Valid()
      modifies this
      ensures Valid() && Stops(old(Value()), examined)
      ensures ok <==> payload == Swept(old(Value()), examined)
      ensures Value() == if ok then Processed(old(Value()), examined) else old(Value())
    {
      var s := Value();
      var expected, steps := ExpectedWithdrawals(s);
      SweptNumbers(s, steps);
      if payload != expected { return false, steps; }
      PayAll(payload);
      MoveCursors(expected);
      ok, examined := true, steps;
    }

    /** With an empty registry, or a cursor outside it, the source fails on an index or a division. */
    method TryProcessWithdrawals(payload: seq<Withdrawal>) returns (ok: bool)
      requires |balances| == |accounts|
      modifies this
      ensures ok ==> old(Valid()) && Valid()
      ensures old(Valid()) ==> (ok <==> exists m :: Stops(old(Value()), m) && payload == Swept(old(Value()), m))
      ensures !ok ==> epoch == old(epoch) && accounts == old(accounts) && balances == old(balances)
                      && nextIndex == old(nextIndex) && nextValidator == old(nextValidator)
    {
      if nextValidator >= |accounts| { return false; }
      ghost var s := Value();
      ghost var examined: nat;
      ok, examined := ProcessWithdrawals(payload);
      forall m | Stops(s, m) ensures m == examined {
        StopsOnce(s, m, examined);
      }
    }
  }

  /** The registry after a block whose sweep examined `m` validators. */
  function Processed(s: Registry, m: nat): Registry
    requires m <= |s.accounts|
  {
    SweptNumbers(s, m);
    s.(balances := Paid(s.balances, Swept(s, m)),
       nextIndex := s.nextIndex + |Swept(s, m)|,
       nextValidator := NextValidator(s, Swept(s, m)))
  }

  /** A block's withdrawals: numbered without a gap, each validator named once and owed what it has, nothing
      saturated, and the total balance down by exactly the withdrawn sum. */
  lemma SweepConserves(s: Registry, m: nat)
    requires Stops(s, m)
    ensures NamedOnce(Swept(s, m)) && Covered(s.balances, Swept(s, m))
    ensures Total(Processed(s, m).balances) + Amounts(Swept(s, m)) == Total(s.balances)
    ensures forall i :: 0 <= i < |Swept(s, m)| ==> s.nextIndex <= Swept(s, m)[i].index == s.nextIndex + i < Processed(s, m).nextIndex
  {
    SweptNamesOnce(s, m);
    SweptNumbers(s, m);
    PaidExactly(s.balances, Swept(s, m));
  }

  /** Registries at successive blocks whose withdrawal index carries on from block to block. */
  ghost predicate Numbered(blocks: seq<Registry>, steps: seq<nat>) {
    && |steps| == |blocks|
    && (forall k :: 0 <= k < |blocks| ==> Stops(blocks[k], steps[k]))
    && (forall k :: 0 < k < |blocks| ==> blocks[k].nextIndex == Processed(blocks[k - 1], steps[k - 1]).nextIndex)
  }

  /** All withdrawals of the blocks, in order. */
  ghost function Payloads(blocks: seq<Registry>, steps: seq<nat>): seq<Withdrawal>
    requires Numbered(blocks, steps)
  {
    if blocks == [] then []
    else
      var last := |blocks| - 1;
      Payloads(blocks[..last], steps[..last]) + Swept(blocks[last], steps[last])
  }

  lemma {:induction false} PayloadsReach(blocks: seq<Registry>, steps: seq<nat>)
    requires Numbered(blocks, steps) && blocks != []
    ensures blocks[0].nextIndex + |Payloads(blocks, steps)| == Processed(blocks[|blocks| - 1], steps[|blocks| - 1]).nextIndex
  {
    var last := |blocks| - 1;
    if last > 0 { PayloadsReach(blocks[..last], steps[..last]); }
  }

  /** Over any sequence of blocks withdrawals are numbered without a gap or a repetition. */
  lemma {:induction false} IndicesGapFree(blocks: seq<Registry>, steps: seq<nat>, i: nat)
    requires Numbered(blocks, steps) && i < |Payloads(blocks, steps)|
    ensures Payloads(blocks, steps)[i].index == blocks[0].nextIndex + i
    decreases |blocks|
  {
    var last := |blocks| - 1;
    var before := Payloads(blocks[..last], steps[..last]);
    if i < |before| {
      IndicesGapFree(blocks[..last], steps[..last], i);
    } else {
      if last > 0 { PayloadsReach(blocks[..last], steps[..last]); }
      SweptNumbers(blocks[last], steps[last]);
    }
  }

  // ---------- nobody is skipped ----------

  /** How many steps ahead of the cursor validator `v` lies. */
  function Distance(s: Registry, v: nat): (d: nat)
    requires v < |s.accounts|
    ensures d < |s.accounts| && Visited(s, d) == v
  {
    if s.nextValidator <= v then v - s.nextValidator else v + |s.accounts| - s.nextValidator
  }

  lemma SumIsRemainder(v: nat, m: nat, n: nat)
    requires v < n && m < n
    ensures (v + m) % n == if v + m < n then v + m else v + m - n
  {
    if v + m >= n { assert v + m == 1 * n + (v + m - n); }
  }

  lemma FullSweepCursor(s: Registry, m: nat, ws: seq<Withdrawal>)
    requires 0 < m <= |s.accounts| && ws == Swept(s, m) && |ws| > |Swept(s, m - 1)| && |ws| == MAX_WITHDRAWALS_PER_PAYLOAD
    ensures NextValidator(s, ws) == Visited(s, m)
  {
    NextIsRemainder(Visited(s, m - 1), |s.accounts|);
  }

  lemma LongSweepCursor(s: Registry, ws: seq<Withdrawal>)
    requires MAX_VALIDATORS_PER_WITHDRAWALS_SWEEP < |s.accounts| && |ws| != MAX_WITHDRAWALS_PER_PAYLOAD
    ensures NextValidator(s, ws) == Visited(s, MAX_VALIDATORS_PER_WITHDRAWALS_SWEEP)
  {
    SumIsRemainder(s.nextValidator, MAX_VALIDATORS_PER_WITHDRAWALS_SWEEP, |s.accounts|);
  }

  // A sweep that did not reach everybody leaves the cursor right after the last validator it examined.
  lemma CursorAfterSweep(s: Registry, m: nat, ws: seq<Withdrawal>)
    requires Stops(s, m) && m < |s.accounts| && ws == Swept(s, m)
    ensures NextValidator(s, ws) == Visited(s, m) && m >= MAX_WITHDRAWALS_PER_PAYLOAD
  {
    if |ws| == MAX_WITHDRAWALS_PER_PAYLOAD {
      FullSweepCursor(s, m, ws);
    } else {
      LongSweepCursor(s, ws);
    }
  }

  /** Where the next sweep starts: with a full payload right after the last validator examined, otherwise 16384 places
      on, round the registry. */
  lemma CursorExactly(s: Registry, m: nat, ws: seq<Withdrawal>)
    requires Stops(s, m) && ws == Swept(s, m)
    ensures |ws| == 16 ==> NextValidator(s, ws) == Visited(s, m)
    ensures |ws| != 16 ==> NextValidator(s, ws) == (s.nextValidator + 16384) % |s.accounts|
  {
    if |ws| == MAX_WITHDRAWALS_PER_PAYLOAD {
      FullSweepCursor(s, m, ws);
    }
  }

  /** Registries at successive blocks: anything may change but the size, and the cursor follows the sweeps. */
  ghost predicate Successive(blocks: seq<Registry>, steps: seq<nat>) {
    && |steps| == |blocks|
    && (forall k :: 0 <= k < |blocks| ==> Stops(blocks[k], steps[k]))
    && (forall k :: 0 < k < |blocks| ==>
          && |blocks[k].accounts| == |blocks[k - 1].accounts|
          && blocks[k].nextValidator == NextValidator(blocks[k - 1], Swept(blocks[k - 1], steps[k - 1])))
  }

  ghost predicate Examined(s: Registry, m: nat, v: nat) {
    v < |s.accounts| && Distance(s, v) < m
  }

  lemma {:induction false} DistanceFalls(blocks: seq<Registry>, steps: seq<nat>, v: nat, k: nat)
    requires Successive(blocks, steps) && k < |blocks| && v < |blocks[0].accounts|
    requires forall j :: 0 <= j < k ==> !Examined(blocks[j], steps[j], v)
    ensures |blocks[k].accounts| == |blocks[0].accounts|
    ensures Distance(blocks[k], v) + MAX_WITHDRAWALS_PER_PAYLOAD * k <= Distance(blocks[0], v)
  {
    if k > 0 {
      DistanceFalls(blocks, steps, v, k - 1);
      var s := blocks[k - 1];
      assert !Examined(s, steps[k - 1], v);
      CursorAfterSweep(s, steps[k - 1], Swept(s, steps[k - 1]));
    }
  }

  /** With a registry of fixed size, every validator is examined within a sixteenth as many blocks. */
  lemma EverybodyExamined(blocks: seq<Registry>, steps: seq<nat>, v: nat)
    requires Successive(blocks, steps) && blocks != [] && v < |blocks[0].accounts|
    requires MAX_WITHDRAWALS_PER_PAYLOAD * |blocks| >= |blocks[0].accounts|
    ensures exists k :: 0 <= k < |blocks| && Examined(blocks[k], steps[k], v)
  {
    var last := |blocks| - 1;
    if forall k :: 0 <= k < last ==> !Examined(blocks[k], steps[k], v) {
      DistanceFalls(blocks, steps, v, last);
      assert Distance(blocks[last], v) < MAX_WITHDRAWALS_PER_PAYLOAD;
      assert steps[last] >= MAX_WITHDRAWALS_PER_PAYLOAD || steps[last] == |blocks[last].accounts| by {
        if steps[last] < |blocks[last].accounts| { CursorAfterSweep(blocks[last], steps[last], Swept(blocks[last], steps[last])); }
      }
      assert Examined(blocks[last], steps[last], v);
    }
  }

  // ---------- who gets how much ----------

  /** What is left to a validator that the sweep examines: nothing, if it has an execution address and may withdraw by
      now; at most 32 ETH, if it has one and its effective balance is 32 ETH; otherwise everything. */
  function Left(s: Registry, v: nat): nat
    requires v < |s.accounts|
  {
    var a := s.accounts[v];
    if a.eth1Credential && a.withdrawableEpoch <= s.epoch then 0
    else if a.eth1Credential && a.effectiveBalance == 32_000_000_000 && s.balances[v] > 32_000_000_000 then 32_000_000_000
    else s.balances[v]
  }

  lemma DueLeaves(s: Registry, v: nat)
    requires v < |s.accounts|
    ensures s.balances[v] - Due(s, v) == Left(s, v)
  {
  }

  ghost predicate PaidTo(ws: seq<Withdrawal>, i: nat, v: nat, amount: nat, address: nat) {
    i < |ws| && ws[i].validator == v && ws[i].amount == amount && ws[i].address == address
  }

  /** Some withdrawal of the payload pays `v` this amount. */
  ghost predicate IsPaid(ws: seq<Withdrawal>, v: nat, amount: nat, address: nat) {
    exists i :: PaidTo(ws, i, v, amount, address)
  }

  // Everyone examined who is due something is paid it.
  lemma {:induction false} DueIsSwept(s: Registry, m: nat, k: nat) returns (i: nat)
    requires k < m <= |s.accounts| && Due(s, Visited(s, k)) > 0
    ensures PaidTo(Swept(s, m), i, Visited(s, k), Due(s, Visited(s, k)), s.accounts[Visited(s, k)].address)
    decreases m
  {
    if k == m - 1 {
      i := |Swept(s, m - 1)|;
    } else {
      i := DueIsSwept(s, m - 1, k);
    }
  }

  lemma NotSwept(s: Registry, m: nat, v: nat, i: nat)
    requires m <= |s.accounts| && v < |s.accounts| && i < |Swept(s, m)|
    requires !Examined(s, m, v) || Due(s, v) == 0
    ensures Swept(s, m)[i].validator != v
  {
    SweptNumbers(s, m);
    var k :| 0 <= k < m && Swept(s, m)[i].validator == Visited(s, k);
    if k < Distance(s, v) {
      VisitedDistinct(s, k, Distance(s, v));
    } else if Distance(s, v) < k {
      VisitedDistinct(s, Distance(s, v), k);
    }
  }

  lemma PaidBalances(s: Registry, m: nat, v: nat, ws: seq<Withdrawal>)
    requires Stops(s, m) && v < |s.accounts| && ws == Swept(s, m) && NamedOnce(ws) && Covered(s.balances, ws)
    ensures Paid(s.balances, ws)[v] == s.balances[v] - if Examined(s, m, v) then Due(s, v) else 0
  {
    if Examined(s, m, v) && Due(s, v) > 0 {
      var i := DueIsSwept(s, m, Distance(s, v));
      PaidEach(s.balances, ws, i);
    } else {
      forall i | 0 <= i < |ws| ensures ws[i].validator != v {
        NotSwept(s, m, v, i);
      }
      PaidUntouched(s.balances, ws, v);
    }
  }

  /** After a block every validator examined has what is left to it, paid out to its own address in one withdrawal if
      anything is; nobody else's balance changes. */
  lemma BalancesAfter(s: Registry, m: nat, v: nat)
    requires Stops(s, m) && v < |s.accounts|
    ensures Processed(s, m).balances[v] == if Examined(s, m, v) then Left(s, v) else s.balances[v]
    ensures Examined(s, m, v) && Left(s, v) < s.balances[v] ==>
      IsPaid(Swept(s, m), v, s.balances[v] - Left(s, v), s.accounts[v].address)
  {
    SweepConserves(s, m);
    DueLeaves(s, v);
    PaidBalances(s, m, v, Swept(s, m));
    if Examined(s, m, v) && Due(s, v) > 0 {
      var i := DueIsSwept(s, m, Distance(s, v));
    }
  }
}
