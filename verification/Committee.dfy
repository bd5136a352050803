/**
 * The light-client sync committee: reduction of a 256-bit chunk modulo a
 * 128-bit stake total, and stake-weighted sampling without replacement.
 */
module Committee {
  import opened Prelude

  const TWO_128: nat := U128_MAX + 1
  const TWO_127: nat := 0x8000_0000_0000_0000_0000_0000_0000_0000
  const SYNC_COMMITTEE_SIZE: nat := 16

  // ----- 256-by-128-bit reduction -----

  function Pow2(k: nat): (r: nat)
    ensures r > 0
  {
    if k == 0 then 1 else 2 * Pow2(k - 1)
  }

  /** 128-bit addition that must not overflow. */
  function CheckedAdd(x: nat, y: nat): nat
    requires x + y <= U128_MAX
  {
    x + y
  }

  /** `2^128 mod m`, computed without leaving 128 bits. */
  function Pow128Mod(m: nat): (r: nat)
    requires 0 < m <= U128_MAX
    ensures r == TWO_128 % m
  {
    var r := (U128_MAX % m + 1) % m;
    ModAdd(U128_MAX, 1, m);
    r
  }

  lemma MulBounds(d: int, m: int)
    requires m > 0
    ensures d >= 1 ==> d * m >= m
    ensures d <= -1 ==> d * m <= -m
  {
  }

  /** Quotient and remainder are unique. */
  lemma ModUnique(x: nat, q: nat, m: nat, r: nat)
    requires r < m && x == q * m + r
    ensures x % m == r
  {
    var d := x / m - q;
    assert d * m == r - x % m;
    MulBounds(d, m);
  }

  lemma ModShift(a: nat, k: nat, m: nat)
    requires m > 0
    ensures (a + k * m) % m == a % m
  {
    assert a == a / m * m + a % m;
    assert (a / m + k) * m == a / m * m + k * m;
    ModUnique(a + k * m, a / m + k, m, a % m);
  }

  lemma ModAdd(a: nat, b: nat, m: nat)
    requires m > 0
    ensures (a % m + b) % m == (a + b) % m
  {
    ModShift(a % m + b, a / m, m);
    assert a + b == a % m + b + a / m * m;
  }

  lemma ModDouble(v: nat, bit: nat, m: nat)
    requires m > 0
    ensures (2 * (v % m) + bit) % m == (2 * v + bit) % m
  {
    var x := v % m;
    assert 2 * x + bit == x + (x + bit) && v + (x + bit) == x + (v + bit) && v + (v + bit) == 2 * v + bit;
    ModAdd(v, x + bit, m);
    ModAdd(v, v + bit, m);
  }

  /** A modulus above `2^127` fits once into `2^128`. */
  lemma CarryRemainder(m: nat)
    requires TWO_127 < m <= U128_MAX
    ensures TWO_128 % m == TWO_128 - m
  {
    ModUnique(TWO_128, 1, m, TWO_128 - m);
  }

  /** A carry out of bit 127 means the modulus exceeds `2^127`; then the sum stays below the modulus. */
  lemma CarryStep(acc: nat, bit: nat, m: nat)
    requires TWO_127 <= acc < m <= U128_MAX && bit < 2
    ensures var shifted := 2 * acc % TWO_128 + bit;
            shifted < m && shifted % m == shifted
            && shifted + Pow128Mod(m) == 2 * acc + bit - m < m
            && (2 * acc + bit) % m == 2 * acc + bit - m
            && (2 * acc + bit - m) % m == 2 * acc + bit - m
  {
    CarryRemainder(m);
    var shifted := 2 * acc + bit - TWO_128;
    assert 2 * acc % TWO_128 == 2 * acc - TWO_128;
    ModUnique(shifted, 0, m, shifted);
    ModUnique(2 * acc + bit, 1, m, 2 * acc + bit - m);
    ModUnique(2 * acc + bit - m, 0, m, 2 * acc + bit - m);
  }

  /** Shifts a bit into a reduced accumulator, never leaving 128 bits. */
  method ShiftIn(acc: nat, bit: nat, m: nat) returns (next: nat)
    requires acc < m <= U128_MAX && bit < 2
    ensures next == (2 * acc + bit) % m
  {
    var highCarry := acc / TWO_127;
    var shifted := 2 * acc % TWO_128 + bit;
    if highCarry == 1 {
      CarryStep(acc, bit, m);
      next := CheckedAdd(shifted % m, Pow128Mod(m)) % m;
    } else {
      next := shifted % m;
    }
  }

  function Bit(byte: Byte, shift: nat): nat {
    byte / Pow2(shift) % 2
  }

  /** `prefix` followed by the bits of `byte` at positions `shift` and up. */
  ghost function Partial(prefix: nat, byte: Byte, shift: nat): nat
    requires shift <= 8
  {
    prefix * Pow2(8 - shift) + byte / Pow2(shift)
  }

  lemma PartialEnds(prefix: nat, byte: Byte)
    ensures Partial(prefix, byte, 8) == prefix
    ensures Partial(prefix, byte, 0) == 256 * prefix + byte
  {
    assert Pow2(0) == 1 && Pow2(8) == 256;
  }

  lemma HalveByte(byte: Byte, shift: nat)
    requires shift < 8
    ensures byte / Pow2(shift) == 2 * (byte / Pow2(shift + 1)) + Bit(byte, shift)
  {
    assert Pow2(0) == 1 && Pow2(1) == 2 && Pow2(2) == 4 && Pow2(3) == 8 && Pow2(4) == 16;
    assert Pow2(5) == 32 && Pow2(6) == 64 && Pow2(7) == 128 && Pow2(8) == 256;
  }

  lemma MulDouble(x: nat, y: nat)
    ensures x * (2 * y) == 2 * (x * y)
  {
  }

  lemma PartialStep(prefix: nat, byte: Byte, shift: nat)
    requires shift < 8
    ensures Partial(prefix, byte, shift) == 2 * Partial(prefix, byte, shift + 1) + Bit(byte, shift)
  {
    HalveByte(byte, shift);
    MulDouble(prefix, Pow2(8 - (shift + 1)));
  }

  method ShiftInByte(acc0: nat, ghost prefix: nat, byte: Byte, m: nat) returns (acc: nat)
    requires 0 < m <= U128_MAX && acc0 == prefix % m
    ensures acc == (256 * prefix + byte) % m
  {
    acc := acc0;
    PartialEnds(prefix, byte);
    for shift := 8 downto 0
      invariant acc == Partial(prefix, byte, shift) % m
    {
      PartialStep(prefix, byte, shift);
      ModDouble(Partial(prefix, byte, shift + 1), Bit(byte, shift), m);
      acc := ShiftIn(acc, Bit(byte, shift), m);
    }
  }

  /** For every chunk and every positive 128-bit modulus. */
  method ReduceU256BeModU128(chunk: seq<Byte>, m: nat) returns (acc: nat)
    requires 0 < m <= U128_MAX
    ensures acc == BeValue(chunk) % m
  {
    acc := 0;
    for i := 0 to |chunk|
      invariant acc == BeValue(chunk[..i]) % m
    {
      acc := ShiftInByte(acc, BeValue(chunk[..i]), chunk[i], m);
      assert chunk[..i + 1][..i] == chunk[..i];
    }
    assert chunk[..|chunk|] == chunk;
  }

  // ----- Stake-weighted sampling without replacement -----

  datatype Validator = Validator(addr: nat, stake: nat)

  predicate InRange(validators: seq<Validator>, remaining: seq<nat>) {
    forall i :: 0 <= i < |remaining| ==> remaining[i] < |validators|
  }

  /** Total stake of the indices listed. */
  function Total(validators: seq<Validator>, remaining: seq<nat>): nat
    requires InRange(validators, remaining)
  {
    if remaining == [] then 0 else validators[remaining[0]].stake + Total(validators, remaining[1..])
  }

  /** The position whose prefix-sum interval contains the selector. */
  function Draw(validators: seq<Validator>, remaining: seq<nat>, selector: nat): (j: nat)
    requires InRange(validators, remaining) && selector < Total(validators, remaining)
    ensures j < |remaining|
    ensures Total(validators, remaining[..j]) <= selector
    ensures selector < Total(validators, remaining[..j]) + validators[remaining[j]].stake
  {
    var first := validators[remaining[0]].stake;
    if selector < first then 0
    else
      var j := 1 + Draw(validators, remaining[1..], selector - first);
      assert remaining[..j][1..] == remaining[1..][..j - 1];
      j
  }

  function Removed(remaining: seq<nat>, j: nat): seq<nat>
    requires j < |remaining|
  {
    remaining[..j] + remaining[j + 1..]
  }

  lemma {:induction false} TotalSplit(validators: seq<Validator>, a: seq<nat>, b: seq<nat>)
    requires InRange(validators, a) && InRange(validators, b)
    ensures InRange(validators, a + b)
    ensures Total(validators, a + b) == Total(validators, a) + Total(validators, b)
  {
    if a == [] {
      assert a + b == b;
    } else {
      assert (a + b)[1..] == a[1..] + b;
      TotalSplit(validators, a[1..], b);
    }
  }

  lemma TotalRemoved(validators: seq<Validator>, remaining: seq<nat>, j: nat)
    requires InRange(validators, remaining) && j < |remaining|
    ensures InRange(validators, Removed(remaining, j))
    ensures Total(validators, Removed(remaining, j)) == Total(validators, remaining) - validators[remaining[j]].stake
  {
    TotalSplit(validators, remaining[..j], remaining[j..]);
    TotalSplit(validators, remaining[..j], remaining[j + 1..]);
    assert remaining == remaining[..j] + remaining[j..];
    assert remaining[j..][1..] == remaining[j + 1..];
  }

  /** No other position's interval contains the selector. */
  lemma DrawUnique(validators: seq<Validator>, remaining: seq<nat>, selector: nat, j: nat)
    requires InRange(validators, remaining) && selector < Total(validators, remaining) && j < |remaining|
    requires Total(validators, remaining[..j]) <= selector
    requires selector < Total(validators, remaining[..j]) + validators[remaining[j]].stake
    ensures Draw(validators, remaining, selector) == j
  {
    var k := Draw(validators, remaining, selector);
    if k < j {
      PrefixStep(validators, remaining, k, j);
    } else if j < k {
      PrefixStep(validators, remaining, j, k);
    }
  }

  lemma PrefixStep(validators: seq<Validator>, remaining: seq<nat>, j: nat, k: nat)
    requires InRange(validators, remaining) && j < k <= |remaining|
    ensures Total(validators, remaining[..j]) + validators[remaining[j]].stake <= Total(validators, remaining[..k])
  {
    TotalSplit(validators, remaining[..j], remaining[j..k]);
    assert remaining[..k] == remaining[..j] + remaining[j..k];
  }

  /** The selectors that pick position `j`. */
  ghost function Selectors(validators: seq<Validator>, remaining: seq<nat>, j: nat): set<nat>
    requires InRange(validators, remaining)
  {
    set s: nat | s < Total(validators, remaining) && Draw(validators, remaining, s) == j
  }

  function Interval(lo: nat, hi: nat): (r: set<nat>)
    requires lo <= hi
    ensures forall s :: s in r <==> lo <= s < hi
    ensures |r| == hi - lo
  {
    if lo == hi then {} else Interval(lo, hi - 1) + {hi - 1}
  }

  /** Exactly `stake` of the possible selectors pick a given validator. */
  lemma SelectorsPerStake(validators: seq<Validator>, remaining: seq<nat>, j: nat)
    requires InRange(validators, remaining) && j < |remaining|
    ensures |Selectors(validators, remaining, j)| == validators[remaining[j]].stake
  {
    var lo := Total(validators, remaining[..j]);
    var stake := validators[remaining[j]].stake;
    PrefixStep(validators, remaining, j, |remaining|);
    assert remaining[..|remaining|] == remaining;
    forall s: nat | lo <= s < lo + stake ensures s in Selectors(validators, remaining, j) {
      DrawUnique(validators, remaining, s, j);
    }
    assert Selectors(validators, remaining, j) == Interval(lo, lo + stake);
  }

  /** Number of listed indices with positive stake. */
  function Staked(validators: seq<Validator>, remaining: seq<nat>): nat
    requires InRange(validators, remaining)
  {
    if remaining == [] then 0
    else (if validators[remaining[0]].stake > 0 then 1 else 0) + Staked(validators, remaining[1..])
  }

  lemma {:induction false} StakedSplit(validators: seq<Validator>, a: seq<nat>, b: seq<nat>)
    requires InRange(validators, a) && InRange(validators, b)
    ensures InRange(validators, a + b)
    ensures Staked(validators, a + b) == Staked(validators, a) + Staked(validators, b)
  {
    if a == [] {
      assert a + b == b;
    } else {
      assert (a + b)[1..] == a[1..] + b;
      StakedSplit(validators, a[1..], b);
    }
  }

  lemma StakedRemoved(validators: seq<Validator>, remaining: seq<nat>, j: nat)
    requires InRange(validators, remaining) && j < |remaining| && validators[remaining[j]].stake > 0
    ensures InRange(validators, Removed(remaining, j))
    ensures Staked(validators, Removed(remaining, j)) == Staked(validators, remaining) - 1
  {
    StakedSplit(validators, remaining[..j], remaining[j..]);
    StakedSplit(validators, remaining[..j], remaining[j + 1..]);
    assert remaining == remaining[..j] + remaining[j..];
    assert remaining[j..][1..] == remaining[j + 1..];
  }

  lemma {:induction false} NoStakeLeft(validators: seq<Validator>, remaining: seq<nat>)
    requires InRange(validators, remaining)
    ensures Total(validators, remaining) == 0 <==> Staked(validators, remaining) == 0
  {
    if remaining != [] {
      NoStakeLeft(validators, remaining[1..]);
    }
  }

  // ----- The committee -----

  /** Stake descending, then address ascending, then input position. */
  predicate Before(validators: seq<Validator>, i: nat, j: nat)
    requires i < |validators| && j < |validators|
  {
    var a, b := validators[i], validators[j];
    a.stake > b.stake || (a.stake == b.stake && (a.addr < b.addr || (a.addr == b.addr && i < j)))
  }

  ghost predicate Ranked(validators: seq<Validator>, order: seq<nat>)
    requires InRange(validators, order)
  {
    forall i, j :: 0 <= i < j < |order| ==> Before(validators, order[i], order[j])
  }

  /** Heavier validators come first, and of equal ones the lower address, then the earlier input position. */
  lemma RankedByStake(validators: seq<Validator>, order: seq<nat>, i: nat, j: nat)
    requires InRange(validators, order) && Ranked(validators, order) && i < j < |order|
    ensures var a, b := validators[order[i]], validators[order[j]];
            a.stake >= b.stake && (a.stake == b.stake ==> a.addr <= b.addr && (a.addr == b.addr ==> order[i] < order[j]))
  {
    assert Before(validators, order[i], order[j]);
  }

  /** Inserts index `k` at its rank. */
  method InsertRanked(validators: seq<Validator>, order: seq<nat>, k: nat) returns (r: seq<nat>)
    requires k < |validators| && InRange(validators, order) && Ranked(validators, order) && k !in order
    ensures InRange(validators, r) && Ranked(validators, r)
    ensures |r| == |order| + 1 && forall v :: v in r <==> v == k || v in order
  {
    var at := 0;
    while at < |order| && Before(validators, order[at], k)
      invariant 0 <= at <= |order|
      invariant forall i :: 0 <= i < at ==> Before(validators, order[i], k)
    {
      at := at + 1;
    }
    r := order[..at] + [k] + order[at..];
    InsertKeepsRanked(validators, order, k, at);
  }

  lemma InsertKeepsRanked(validators: seq<Validator>, order: seq<nat>, k: nat, at: nat)
    requires k < |validators| && InRange(validators, order) && Ranked(validators, order) && k !in order && at <= |order|
    requires forall i :: 0 <= i < at ==> Before(validators, order[i], k)
    requires at < |order| ==> !Before(validators, order[at], k)
    ensures var r := order[..at] + [k] + order[at..];
            && InRange(validators, r) && Ranked(validators, r) && forall v :: v in r <==> v == k || v in order
  {
    forall j | at <= j < |order| ensures Before(validators, k, order[j]) {
      assert order[at] != k;
      assert j > at ==> Before(validators, order[at], order[j]);
    }
    InsertedMembers(order, k, at);
  }

  lemma InsertedMembers(order: seq<nat>, k: nat, at: nat)
    requires at <= |order|
    ensures var r := order[..at] + [k] + order[at..]; forall v :: v in r <==> v == k || v in order
  {
    var r := order[..at] + [k] + order[at..];
    assert order == order[..at] + order[at..];
    assert r[at] == k;
  }

  /** The walk over the remaining indices; the last-index default is never what decides. */
  method WeightedPick(validators: seq<Validator>, remaining: seq<nat>, selector: nat) returns (picked: nat)
    requires InRange(validators, remaining) && selector < Total(validators, remaining) <= U128_MAX
    ensures picked == Draw(validators, remaining, selector)
  {
    var cumulative := 0;
    picked := |remaining| - 1;
    assert remaining[..|remaining|] == remaining;
    for j := 0 to |remaining|
      invariant cumulative == Total(validators, remaining[..j]) <= selector
    {
      TotalSplit(validators, remaining[..j], [remaining[j]]);
      assert remaining[..j + 1] == remaining[..j] + [remaining[j]];
      PrefixStep(validators, remaining, j, |remaining|);
      // saturating addition, never saturated
      cumulative := Min(cumulative + validators[remaining[j]].stake, U128_MAX);
      if cumulative > selector {
        DrawUnique(validators, remaining, selector, j);
        return j;
      }
    }
    assert false;
  }

  function Indices(n: nat): (r: seq<nat>)
    ensures |r| == n && forall i :: 0 <= i < n ==> r[i] == i
  {
    seq(n, i => i)
  }

  method RankAll(validators: seq<Validator>) returns (order: seq<nat>)
    ensures InRange(validators, order) && Ranked(validators, order) && |order| == |validators|
    ensures forall v: nat :: v in order <==> v < |validators|
  {
    order := [];
    for k := 0 to |validators|
      invariant InRange(validators, order) && Ranked(validators, order) && |order| == k
      invariant forall v: nat :: v in order <==> v < k
    {
      order := InsertRanked(validators, order, k);
    }
  }

  // ----- What is left after some members are taken -----

  ghost predicate Ascending(s: seq<nat>) {
    forall i, j :: 0 <= i < j < |s| ==> s[i] < s[j]
  }

  /** The indices below `n` that are not taken, ascending. */
  function Rest(n: nat, taken: seq<nat>): seq<nat> {
    if n == 0 then [] else Rest(n - 1, taken) + if n - 1 in taken then [] else [n - 1]
  }

  lemma {:induction false} RestIs(n: nat, taken: seq<nat>)
    ensures Ascending(Rest(n, taken)) && forall v: nat :: v in Rest(n, taken) <==> v < n && v !in taken
  {
    if n > 0 {
      RestIs(n - 1, taken);
      var before := Rest(n - 1, taken);
      forall i | 0 <= i < |before| ensures before[i] < n - 1 {
        assert before[i] in before;
      }
    }
  }

  lemma RestInRange(validators: seq<Validator>, taken: seq<nat>)
    ensures InRange(validators, Rest(|validators|, taken))
  {
    var rest := Rest(|validators|, taken);
    RestIs(|validators|, taken);
    forall i | 0 <= i < |rest| ensures rest[i] < |validators| {
      assert rest[i] in rest;
    }
  }

  lemma RestOfNone(n: nat)
    ensures Rest(n, []) == Indices(n)
  {
    RestIs(n, []);
    forall v: nat | v < n ensures v in Indices(n) {
      assert Indices(n)[v] == v;
    }
    AscendingUnique(Rest(n, []), Indices(n));
  }

  lemma RemovedAscending(remaining: seq<nat>, j: nat)
    requires Ascending(remaining) && j < |remaining|
    ensures Ascending(Removed(remaining, j))
    ensures forall v :: v in Removed(remaining, j) <==> v in remaining && v != remaining[j]
  {
    var r := Removed(remaining, j);
    assert forall i :: 0 <= i < |r| ==> r[i] == remaining[if i < j then i else i + 1];
    forall v | v in remaining && v != remaining[j] ensures v in r {
      var i :| 0 <= i < |remaining| && remaining[i] == v;
      assert r[if i < j then i else i - 1] == v;
    }
  }

  /** Taking one more removes exactly its position. */
  lemma RestAfter(n: nat, taken: seq<nat>, j: nat)
    requires j < |Rest(n, taken)|
    ensures Rest(n, taken + [Rest(n, taken)[j]]) == Removed(Rest(n, taken), j)
  {
    var rest := Rest(n, taken);
    RestIs(n, taken);
    RestIs(n, taken + [rest[j]]);
    RemovedAscending(rest, j);
    AscendingUnique(Rest(n, taken + [rest[j]]), Removed(rest, j));
  }

  ghost predicate SameMembers(s: seq<nat>, t: seq<nat>) {
    forall v :: v in s <==> v in t
  }

  lemma {:induction false} AscendingUnique(s: seq<nat>, t: seq<nat>)
    requires Ascending(s) && Ascending(t) && SameMembers(s, t)
    ensures s == t
    decreases |s|
  {
    if s != [] || t != [] {
      SameTails(s, t);
      AscendingUnique(s[..|s| - 1], t[..|t| - 1]);
      assert s == s[..|s| - 1] + [s[|s| - 1]] && t == t[..|t| - 1] + [t[|t| - 1]];
    }
  }

  lemma SameTails(s: seq<nat>, t: seq<nat>)
    requires Ascending(s) && Ascending(t) && (s != [] || t != []) && SameMembers(s, t)
    ensures s != [] && t != [] && s[|s| - 1] == t[|t| - 1] && SameMembers(s[..|s| - 1], t[..|t| - 1])
  {
    assert (s != [] ==> s[0] in t) && (t != [] ==> t[0] in s);
    LastIsGreatest(s, t[|t| - 1]);
    LastIsGreatest(t, s[|s| - 1]);
    var s', t' := s[..|s| - 1], t[..|t| - 1];
    forall v ensures v in s' <==> v in t' {
      LastIsGreatest(s, v);
      LastIsGreatest(t, v);
    }
  }

  lemma LastIsGreatest(s: seq<nat>, v: nat)
    requires Ascending(s) && s != []
    ensures v in s ==> v <= s[|s| - 1]
    ensures v in s[..|s| - 1] <==> v in s && v != s[|s| - 1]
  {
  }

  // ----- The drawn committee -----

  /** The member is the one whose interval of prefix sums contains the hash value, reduced modulo the total stake. */
  ghost predicate Drawn(validators: seq<Validator>, rest: seq<nat>, chunk: seq<Byte>, member: nat) {
    InRange(validators, rest) && Total(validators, rest) > 0 &&
    exists j :: 0 <= j < |rest| && rest[j] == member && Covers(validators, rest, j, BeValue(chunk) % Total(validators, rest))
  }

  ghost predicate Covers(validators: seq<Validator>, rest: seq<nat>, j: nat, selector: nat)
    requires InRange(validators, rest) && j < |rest|
  {
    Total(validators, rest[..j]) <= selector < Total(validators, rest[..j]) + validators[rest[j]].stake
  }

  /** What a member must satisfy, given the members before it and its number. */
  type MemberTest = (seq<nat>, nat, nat) -> bool

  ghost predicate Each(test: MemberTest, committee: seq<nat>) {
    forall i :: 0 <= i < |committee| ==> test(committee[..i], i, committee[i])
  }

  /** Drawn by the hash chunk of its number from the validators that are not among the members before it. */
  ghost function DrawTest(validators: seq<Validator>, chunks: nat -> seq<Byte>): MemberTest {
    (taken, i: nat, member: nat) => Drawn(validators, Rest(|validators|, taken), chunks(i), member)
  }

  /** Every member is drawn, until the committee is full or no stake is left. */
  ghost predicate IsCommittee(validators: seq<Validator>, chunks: nat -> seq<Byte>, committee: seq<nat>) {
    Each(DrawTest(validators, chunks), committee) && Complete(validators, committee)
  }

  ghost predicate Complete(validators: seq<Validator>, committee: seq<nat>) {
    |committee| <= SYNC_COMMITTEE_SIZE &&
    (|committee| == SYNC_COMMITTEE_SIZE || NoStake(validators, Rest(|validators|, committee)))
  }

  ghost predicate NoStake(validators: seq<Validator>, rest: seq<nat>) {
    InRange(validators, rest) && Total(validators, rest) == 0
  }

  lemma OneMore(test: MemberTest, committee: seq<nat>, member: nat)
    requires Each(test, committee) && test(committee, |committee|, member)
    ensures Each(test, committee + [member])
  {
    var more := committee + [member];
    forall i | 0 <= i < |more| ensures test(more[..i], i, more[i]) {
      assert more[..i] == committee[..i];
      assert i == |committee| ==> committee[..i] == committee;
    }
  }

  /** One draw: the member, what is left, and its stake. */
  method DrawOne(validators: seq<Validator>, chunk: seq<Byte>, ghost taken: seq<nat>, remaining: seq<nat>, totalStake: nat)
    returns (member: nat, rest: seq<nat>, left: nat)
    requires remaining == Rest(|validators|, taken) && InRange(validators, remaining)
    requires 0 < totalStake == Total(validators, remaining) <= U128_MAX
    ensures Drawn(validators, remaining, chunk, member) && rest == Rest(|validators|, taken + [member])
    ensures InRange(validators, rest) && left == Total(validators, rest) <= U128_MAX
  {
    var selector := ReduceU256BeModU128(chunk, totalStake);
    var picked := WeightedPick(validators, remaining, selector);
    assert Covers(validators, remaining, picked, selector);
    RestAfter(|validators|, taken, picked);
    TotalRemoved(validators, remaining, picked);
    member, rest, left := remaining[picked], Removed(remaining, picked), totalStake - validators[remaining[picked]].stake;
  }

  ghost predicate Tests(test: MemberTest, validators: seq<Validator>, chunks: nat -> seq<Byte>) {
    forall taken, i: nat, member: nat {:trigger Drawn(validators, Rest(|validators|, taken), chunks(i), member)} ::
      test(taken, i, member) <==> Drawn(validators, Rest(|validators|, taken), chunks(i), member)
  }

  method DrawAll(validators: seq<Validator>, chunks: nat -> seq<Byte>, ghost test: MemberTest) returns (committee: seq<nat>)
    requires Total(validators, Indices(|validators|)) <= U128_MAX && Tests(test, validators, chunks)
    ensures Each(test, committee) && Complete(validators, committee)
  {
    RestOfNone(|validators|);
    var remaining := Indices(|validators|);
    var totalStake := Total(validators, remaining);
    committee := [];
    while |committee| < SYNC_COMMITTEE_SIZE && totalStake > 0
      invariant |committee| <= SYNC_COMMITTEE_SIZE && Each(test, committee)
      invariant remaining == Rest(|validators|, committee) && InRange(validators, remaining)
      invariant totalStake == Total(validators, remaining) <= U128_MAX
      decreases SYNC_COMMITTEE_SIZE - |committee|
    {
      var member, rest, left := DrawOne(validators, chunks(|committee|), committee, remaining, totalStake);
      OneMore(test, committee, member);
      committee, remaining, totalStake := committee + [member], rest, left;
    }
  }

  method DrawCommittee(validators: seq<Validator>, chunks: nat -> seq<Byte>) returns (committee: seq<nat>)
    requires Total(validators, Indices(|validators|)) <= U128_MAX
    ensures IsCommittee(validators, chunks, committee)
  {
    committee := DrawAll(validators, chunks, DrawTest(validators, chunks));
  }

  /**
   * At most 16 validators: all of them, ranked. More: the weighted draw, for
   * which the stake total must fit 128 bits, as the checked sum demands.
   */
  method SelectCommittee(validators: seq<Validator>, chunks: nat -> seq<Byte>) returns (committee: seq<nat>)
    requires |validators| > SYNC_COMMITTEE_SIZE ==> Total(validators, Indices(|validators|)) <= U128_MAX
    ensures |validators| <= SYNC_COMMITTEE_SIZE ==>
              InRange(validators, committee) && Ranked(validators, committee)
              && |committee| == |validators| && forall v: nat :: v < |validators| ==> v in committee
    ensures |validators| > SYNC_COMMITTEE_SIZE ==> IsCommittee(validators, chunks, committee)
  {
    if |validators| <= SYNC_COMMITTEE_SIZE {
      committee := RankAll(validators);
    } else {
      committee := DrawCommittee(validators, chunks);
    }
  }

  ghost predicate Eligible(validators: seq<Validator>, v: nat) {
    v < |validators| && validators[v].stake > 0
  }

  ghost function StakedLeft(validators: seq<Validator>, taken: seq<nat>): nat {
    RestInRange(validators, taken);
    Staked(validators, Rest(|validators|, taken))
  }

  /** A draw picks a staked validator that is left. */
  lemma DrawnIsLeft(validators: seq<Validator>, taken: seq<nat>, chunk: seq<Byte>, member: nat)
    requires Drawn(validators, Rest(|validators|, taken), chunk, member)
    ensures member !in taken && Eligible(validators, member)
    ensures StakedLeft(validators, taken + [member]) == StakedLeft(validators, taken) - 1
  {
    var rest := Rest(|validators|, taken);
    var j :| 0 <= j < |rest| && rest[j] == member && Covers(validators, rest, j, BeValue(chunk) % Total(validators, rest));
    RestIs(|validators|, taken);
    assert rest[j] in rest;
    RestAfter(|validators|, taken, j);
    StakedRemoved(validators, rest, j);
  }

  ghost predicate AllEligible(validators: seq<Validator>, members: seq<nat>) {
    forall v :: v in members ==> Eligible(validators, v)
  }

  lemma {:induction false} MembersSound(validators: seq<Validator>, chunks: nat -> seq<Byte>, test: MemberTest, committee: seq<nat>, i: nat)
    requires Each(test, committee) && Tests(test, validators, chunks) && i <= |committee|
    ensures Distinct(committee[..i]) && AllEligible(validators, committee[..i])
    ensures StakedLeft(validators, committee[..i]) == StakedLeft(validators, []) - i
  {
    if i == 0 {
      assert committee[..0] == [];
    } else {
      var before, member := committee[..i - 1], committee[i - 1];
      MembersSound(validators, chunks, test, committee, i - 1);
      assert test(before, i - 1, member);
      MemberSound(validators, chunks, test, before, i - 1, member);
      assert committee[..i] == before + [member];
    }
  }

  lemma MemberSound(validators: seq<Validator>, chunks: nat -> seq<Byte>, test: MemberTest, before: seq<nat>, i: nat, member: nat)
    requires Tests(test, validators, chunks) && test(before, i, member)
    requires Distinct(before) && AllEligible(validators, before)
    ensures Distinct(before + [member]) && AllEligible(validators, before + [member])
    ensures StakedLeft(validators, before + [member]) == StakedLeft(validators, before) - 1
  {
    assert Drawn(validators, Rest(|validators|, before), chunks(i), member);
    DrawnIsLeft(validators, before, chunks(i), member);
  }

  /** The drawn committee: distinct staked validators, as many as there are up to the committee size. */
  lemma CommitteeSound(validators: seq<Validator>, chunks: nat -> seq<Byte>, committee: seq<nat>)
    requires IsCommittee(validators, chunks, committee)
    ensures |committee| == Min(SYNC_COMMITTEE_SIZE, Staked(validators, Indices(|validators|)))
    ensures Distinct(committee) && AllEligible(validators, committee)
  {
    TestedSound(validators, chunks, DrawTest(validators, chunks), committee);
  }

  lemma TestedSound(validators: seq<Validator>, chunks: nat -> seq<Byte>, test: MemberTest, committee: seq<nat>)
    requires Each(test, committee) && Tests(test, validators, chunks) && Complete(validators, committee)
    ensures |committee| == Min(SYNC_COMMITTEE_SIZE, Staked(validators, Indices(|validators|)))
    ensures Distinct(committee) && AllEligible(validators, committee)
  {
    MembersSound(validators, chunks, test, committee, |committee|);
    assert committee[..|committee|] == committee;
    CountsAgree(validators, committee);
  }

  lemma CountsAgree(validators: seq<Validator>, committee: seq<nat>)
    requires Complete(validators, committee) && StakedLeft(validators, committee) == StakedLeft(validators, []) - |committee|
    ensures |committee| == Min(SYNC_COMMITTEE_SIZE, Staked(validators, Indices(|validators|)))
  {
    RestOfNone(|validators|);
    NoneLeft(validators, committee);
  }

  lemma NoneLeft(validators: seq<Validator>, committee: seq<nat>)
    requires Complete(validators, committee)
    ensures |committee| < SYNC_COMMITTEE_SIZE ==> StakedLeft(validators, committee) == 0
  {
    RestInRange(validators, committee);
    NoStakeLeft(validators, Rest(|validators|, committee));
  }

  /** Stake and chunks fix each member. */
  lemma DrawnOnce(validators: seq<Validator>, rest: seq<nat>, chunk: seq<Byte>, a: nat, b: nat)
    requires Drawn(validators, rest, chunk, a) && Drawn(validators, rest, chunk, b)
    ensures a == b
  {
    var selector := BeValue(chunk) % Total(validators, rest);
    var j :| 0 <= j < |rest| && rest[j] == a && Covers(validators, rest, j, selector);
    var k :| 0 <= k < |rest| && rest[k] == b && Covers(validators, rest, k, selector);
    DrawUnique(validators, rest, selector, j);
    DrawUnique(validators, rest, selector, k);
  }

  /** And so the whole committee. */
  lemma CommitteeUnique(validators: seq<Validator>, chunks: nat -> seq<Byte>, c: seq<nat>, d: seq<nat>)
    requires IsCommittee(validators, chunks, c) && IsCommittee(validators, chunks, d)
    ensures c == d
  {
    CommitteeSound(validators, chunks, c);
    CommitteeSound(validators, chunks, d);
    var test := DrawTest(validators, chunks);
    forall taken, i: nat, a: nat, b: nat | test(taken, i, a) && test(taken, i, b) ensures a == b {
      DrawnOnce(validators, Rest(|validators|, taken), chunks(i), a, b);
    }
    SamePrefix(test, c, d, |c|);
    assert c[..|c|] == c && d[..|d|] == d;
  }

  lemma {:induction false} SamePrefix(test: MemberTest, c: seq<nat>, d: seq<nat>, i: nat)
    requires Each(test, c) && Each(test, d) && i <= |c| && i <= |d|
    requires forall taken, i: nat, a: nat, b: nat :: test(taken, i, a) && test(taken, i, b) ==> a == b
    ensures c[..i] == d[..i]
  {
    if i > 0 {
      SamePrefix(test, c, d, i - 1);
      assert test(c[..i - 1], i - 1, c[i - 1]) && test(d[..i - 1], i - 1, d[i - 1]);
      assert c[..i] == c[..i - 1] + [c[i - 1]] && d[..i] == d[..i - 1] + [d[i - 1]];
    }
  }
}
