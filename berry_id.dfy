/** Identifier generation of package berry: a wrapping 16-bit counter written
    big-endian after two random bytes, the four bytes hex-encoded. The random
    source is a parameter; a failed read of it is an input case. */
module BerryId {
  import opened Wire

  type Byte = x: int | 0 <= x < 256

  /** A pair of bytes read from the random source. */
  type RandomPair = (Byte, Byte)

  const MaxUint16: int := 65535

  /** The period of the counter: it takes the values 1..65535 in turn. */
  const Period: int := 65535

  const LowerHexDigits: string := "0123456789abcdef"

  /** A character of `[0-9a-f]`. */
  predicate IsLowerHex(ch: char)
  {
    '0' <= ch <= '9' || 'a' <= ch <= 'f'
  }

  /** One turn of the counter: reset at the maximum, then increment. */
  function NextCounter(c: int): (c': int)
    requires 0 <= c <= MaxUint16
    ensures 1 <= c' <= MaxUint16
    ensures c' == c % Period + 1
  {
    (if c == MaxUint16 then 0 else c) + 1
  }

  /** The counter after `k` successful turns starting from `c`. */
  function CounterAfter(c: int, k: nat): (c': int)
    requires 0 <= c <= MaxUint16
    ensures 0 <= c' <= MaxUint16
  {
    if k == 0 then c else NextCounter(CounterAfter(c, k - 1))
  }

  /** After at least one turn the counter is `(c + k - 1) mod 65535 + 1`. */
  lemma {:induction false} CounterAfterClosedForm(c: int, k: nat)
    requires 0 <= c <= MaxUint16
    requires 1 <= k
    ensures CounterAfter(c, k) == (c + k - 1) % Period + 1
  {
    if k > 1 {
      CounterAfterClosedForm(c, k - 1);
      var x := (c + k - 2) % Period;
      assert CounterAfter(c, k - 1) == x + 1;
      if x == Period - 1 {
        assert (c + k - 1) % Period == 0;
      } else {
        assert (c + k - 1) % Period == x + 1;
      }
    }
  }

  /** The counter repeats with period 65535. */
  lemma CounterPeriodic(c: int, k: nat)
    requires 0 <= c <= MaxUint16
    requires 1 <= k
    ensures CounterAfter(c, k + Period) == CounterAfter(c, k)
  {
    var a := c + k - 1;
    CounterAfterClosedForm(c, k);
    assert CounterAfter(c, k) == a % Period + 1;
    CounterAfterClosedForm(c, k + Period);
    assert CounterAfter(c, k + Period) == (a + Period) % Period + 1;
    ShiftByPeriod(a);
  }

  lemma ShiftByPeriod(a: nat)
    ensures (a + Period) % Period == a % Period
  {
    var q, r := a / Period, a % Period;
    assert a + Period == (q + 1) * Period + r;
  }

  /** Two numbers closer together than the period leave different remainders. */
  lemma DistinctResidues(a: int, b: int)
    requires 0 <= a < b < a + Period
    ensures a % Period != b % Period
  {
    var q, r := a / Period, a % Period;
    var d := b - a;
    assert a == q * Period + r;
    if r + d < Period {
      assert b == q * Period + (r + d);
      assert b % Period == r + d;
    } else {
      assert b == (q + 1) * Period + (r + d - Period);
      assert b % Period == r + d - Period;
    }
  }

  /** Within one period the counter takes no value twice. */
  lemma CounterDistinctWithinPeriod(c: int, i: nat, j: nat)
    requires 0 <= c <= MaxUint16
    requires 1 <= i < j < i + Period
    ensures CounterAfter(c, i) != CounterAfter(c, j)
  {
    CounterAfterClosedForm(c, i);
    CounterAfterClosedForm(c, j);
    DistinctResidues(c + i - 1, c + j - 1);
  }

  /** `binary.BigEndian.PutUint16`: high byte first. */
  function BigEndian16(c: int): (b: seq<Byte>)
    requires 0 <= c <= MaxUint16
    ensures |b| == 2 && (b[0] as int) * 256 + (b[1] as int) == c
  {
    [c / 256, c % 256]
  }

  /** The four bytes of the id buffer: two random bytes, then the counter. */
  function IdBytes(r: RandomPair, c: int): (b: seq<Byte>)
    requires 0 <= c <= MaxUint16
    ensures |b| == 4 && b[..2] == [r.0, r.1] && b[2..] == BigEndian16(c)
  {
    [r.0, r.1] + BigEndian16(c)
  }

  function HexDigit(v: int): (c: char)
    requires 0 <= v < 16
    ensures IsLowerHex(c)
  {
    LowerHexDigits[v]
  }

  /** `hex.EncodeToString`: two lower-case digits per byte, high nibble first. */
  function Hex(bytes: seq<Byte>): (s: string)
    ensures |s| == 2 * |bytes|
    ensures forall i :: 0 <= i < |s| ==> IsLowerHex(s[i])
  {
    if bytes == [] then "" else [HexDigit(bytes[0] / 16), HexDigit(bytes[0] % 16)] + Hex(bytes[1..])
  }

  lemma HexDigitInjective(a: int, b: int)
    requires 0 <= a < 16 && 0 <= b < 16
    requires HexDigit(a) == HexDigit(b)
    ensures a == b
  {
  }

  /** Hex encoding of equal-length byte strings is injective. */
  lemma {:induction false} HexInjective(a: seq<Byte>, b: seq<Byte>)
    requires |a| == |b|
    requires Hex(a) == Hex(b)
    ensures a == b
  {
    if a != [] {
      var ha, hb := Hex(a), Hex(b);
      assert ha[0] == hb[0] && ha[1] == hb[1];
      HexDigitInjective(a[0] / 16, b[0] / 16);
      HexDigitInjective(a[0] % 16, b[0] % 16);
      assert a[0] == b[0];
      assert Hex(a[1..]) == ha[2..] == hb[2..] == Hex(b[1..]);
      HexInjective(a[1..], b[1..]);
      assert a == [a[0]] + a[1..];
      assert b == [b[0]] + b[1..];
    }
  }

  /** Hex of a concatenation is the concatenation of the hex strings. */
  lemma {:induction false} HexAppend(a: seq<Byte>, b: seq<Byte>)
    ensures Hex(a + b) == Hex(a) + Hex(b)
  {
    if a != [] {
      assert (a + b)[1..] == a[1..] + b;
      HexAppend(a[1..], b);
    } else {
      assert a + b == b;
    }
  }

  /** What every emitted id looks like: eight lower-case hex digits. */
  predicate IsGeneratedId(s: string)
  {
    |s| == 8 && forall i :: 0 <= i < |s| ==> IsLowerHex(s[i])
  }

  /** The id emitted for random bytes `r` and counter value `c`. */
  function IdFor(r: RandomPair, c: int): (id: string)
    requires 0 <= c <= MaxUint16
    ensures IsGeneratedId(id)
    ensures id[4..] == Hex(BigEndian16(c))
  {
    HexAppend([r.0, r.1], BigEndian16(c));
    Hex(IdBytes(r, c))
  }

  /** Distinct counter values have distinct hex encodings. */
  lemma CounterHexInjective(c1: int, c2: int)
    requires 0 <= c1 <= MaxUint16 && 0 <= c2 <= MaxUint16
    requires c1 != c2
    ensures Hex(BigEndian16(c1)) != Hex(BigEndian16(c2))
  {
    if Hex(BigEndian16(c1)) == Hex(BigEndian16(c2)) {
      HexInjective(BigEndian16(c1), BigEndian16(c2));
    }
  }

  /** Two ids with different counter values differ, whatever the random bytes. */
  lemma IdsWithDistinctCountersDiffer(r1: RandomPair, c1: int, r2: RandomPair, c2: int)
    requires 0 <= c1 <= MaxUint16 && 0 <= c2 <= MaxUint16
    requires c1 != c2
    ensures IdFor(r1, c1) != IdFor(r2, c2)
  {
    CounterHexInjective(c1, c2);
    assert IdFor(r1, c1)[4..] != IdFor(r2, c2)[4..];
  }

  /** The ids emitted by the producer loop for the given outcomes of reading
      the random source, starting from counter `c`. */
  function Emitted(c: int, draws: seq<Option<RandomPair>>): (ids: seq<string>)
    requires 0 <= c <= MaxUint16
    decreases |draws|
  {
    if draws == [] then []
    else if draws[0].None? then Emitted(c, draws[1..])
    else [IdFor(draws[0].value, NextCounter(c))] + Emitted(NextCounter(c), draws[1..])
  }

  /** Everything the producer emits has the shape of a generated id. */
  lemma {:induction false} EmittedAreIds(c: int, draws: seq<Option<RandomPair>>)
    requires 0 <= c <= MaxUint16
    ensures forall k :: 0 <= k < |Emitted(c, draws)| ==> IsGeneratedId(Emitted(c, draws)[k])
    decreases |draws|
  {
    if draws != [] {
      var next := if draws[0].None? then c else NextCounter(c);
      EmittedAreIds(next, draws[1..]);
    }
  }

  /** Number of successful draws in `draws`. */
  function Successes(draws: seq<Option<RandomPair>>): nat
  {
    if draws == [] then 0 else (if draws[0].Some? then 1 else 0) + Successes(draws[1..])
  }

  /** What the first draw contributes. */
  lemma EmittedFirst(c: int, draws: seq<Option<RandomPair>>)
    requires 0 <= c <= MaxUint16 && draws != []
    ensures draws[0].None? ==> Emitted(c, draws) == Emitted(c, draws[1..]) && Successes(draws) == Successes(draws[1..])
    ensures draws[0].Some? ==>
      && Emitted(c, draws) == [IdFor(draws[0].value, NextCounter(c))] + Emitted(NextCounter(c), draws[1..])
      && Successes(draws) == 1 + Successes(draws[1..])
  {
  }

  /** The i-th emitted id carries the counter value after i + 1 turns. */
  lemma {:induction false} EmittedCounter(c: int, draws: seq<Option<RandomPair>>, i: nat)
    requires 0 <= c <= MaxUint16
    requires i < |Emitted(c, draws)|
    ensures |Emitted(c, draws)[i]| == 8
    ensures Emitted(c, draws)[i][4..] == Hex(BigEndian16(CounterAfter(c, i + 1)))
    decreases draws
  {
    if draws[0].None? {
      EmittedCounter(c, draws[1..], i);
    } else if i > 0 {
      EmittedCounter(NextCounter(c), draws[1..], i - 1);
      CounterAfterShift(c, i);
    }
  }

  lemma {:induction false} EmittedLength(c: int, draws: seq<Option<RandomPair>>)
    requires 0 <= c <= MaxUint16
    ensures |Emitted(c, draws)| == Successes(draws)
    decreases draws
  {
    if draws != [] {
      EmittedLength(if draws[0].None? then c else NextCounter(c), draws[1..]);
    }
  }

  lemma {:induction false} CounterAfterShift(c: int, k: nat)
    requires 0 <= c <= MaxUint16
    ensures CounterAfter(NextCounter(c), k) == CounterAfter(c, k + 1)
  {
    if k > 0 {
      CounterAfterShift(c, k - 1);
    }
  }

  /** Strings ending in the encodings of two different counter values differ. */
  lemma CounterSuffixesDiffer(x: string, y: string, cx: int, cy: int)
    requires 0 <= cx <= MaxUint16 && 0 <= cy <= MaxUint16 && cx != cy
    requires 4 <= |x| && 4 <= |y|
    requires x[4..] == Hex(BigEndian16(cx)) && y[4..] == Hex(BigEndian16(cy))
    ensures x != y
  {
    CounterHexInjective(cx, cy);
  }

  /** Any 65535 consecutive emitted ids are pairwise distinct. */
  lemma {:induction false} EmittedDistinctWithinPeriod(c: int, draws: seq<Option<RandomPair>>, i: nat, j: nat)
    requires 0 <= c <= MaxUint16
    requires i < j < |Emitted(c, draws)|
    requires j - i < Period
    ensures Emitted(c, draws)[i] != Emitted(c, draws)[j]
  {
    var ids := Emitted(c, draws);
    var ci, cj := CounterAfter(c, i + 1), CounterAfter(c, j + 1);
    EmittedCounter(c, draws, i);
    EmittedCounter(c, draws, j);
    CounterDistinctWithinPeriod(c, i + 1, j + 1);
    CounterSuffixesDiffer(ids[i], ids[j], ci, cj);
  }

  /** Where the producer loop stands after the first `i` draws, started from
      counter `c0`: `ids` were pushed, the counter is `c` after `k` successful
      draws, and what is still to come is what `Emitted` predicts. */
  ghost predicate ProducedSoFar(c0: int, draws: seq<Option<RandomPair>>, i: nat, ids: seq<string>, c: int, k: nat)
    requires 0 <= c0 <= MaxUint16
  {
    && i <= |draws| && 0 <= c <= MaxUint16
    && ids + Emitted(c, draws[i..]) == Emitted(c0, draws)
    && c == CounterAfter(c0, k)
    && k + Successes(draws[i..]) == Successes(draws)
  }

  /** A successful turn of the producer loop keeps `ProducedSoFar`. */
  lemma ProduceAdvance(c0: int, draws: seq<Option<RandomPair>>, i: nat, ids: seq<string>, c: int, k: nat,
                       id: string, c': int)
    requires 0 <= c0 <= MaxUint16 && ProducedSoFar(c0, draws, i, ids, c, k) && i < |draws|
    requires draws[i].Some? && c' == NextCounter(c) && id == IdFor(draws[i].value, c')
    ensures ProducedSoFar(c0, draws, i + 1, ids + [id], c', k + 1)
  {
    var rest := draws[i + 1..];
    EmittedFirst(c, draws[i..]);
    assert draws[i..][1..] == rest;
    assert ids + [id] + Emitted(c', rest) == ids + Emitted(c, draws[i..]);
  }

  /** A failed turn of the producer loop keeps `ProducedSoFar`. */
  lemma ProduceRetry(c0: int, draws: seq<Option<RandomPair>>, i: nat, ids: seq<string>, c: int, k: nat)
    requires 0 <= c0 <= MaxUint16 && ProducedSoFar(c0, draws, i, ids, c, k) && i < |draws|
    requires draws[i].None?
    ensures ProducedSoFar(c0, draws, i + 1, ids, c, k)
  {
    EmittedFirst(c, draws[i..]);
    assert draws[i..][1..] == draws[i + 1..];
  }

  /** When the draws run out, the loop has pushed exactly what `Emitted`
      predicts. */
  lemma ProduceDone(c0: int, draws: seq<Option<RandomPair>>, ids: seq<string>, c: int, k: nat)
    requires 0 <= c0 <= MaxUint16 && ProducedSoFar(c0, draws, |draws|, ids, c, k)
    ensures ids == Emitted(c0, draws) && c == CounterAfter(c0, Successes(draws))
  {
    assert draws[|draws|..] == [];
    assert ids + [] == ids;
  }

  /** The state of the producer goroutine: the counter, the failure count and
      the four-byte buffer the id is encoded from. */
  class IdGenerator {
    var counter: int
    var failures: int
    const raw: array<Byte>

    ghost predicate Valid()
      reads this
    {
      raw.Length == 4 && 0 <= counter <= MaxUint16 && failures == 0
    }

    constructor ()
      ensures Valid() && fresh(raw)
      ensures counter == 0
    {
      counter := 0;
      failures := 0;
      raw := new Byte[4];
    }

    /** One turn of the producer loop. `random` is the outcome of reading two
        bytes from the random source; on failure nothing is emitted and the
        loop tries again. */
    method Step(random: Option<RandomPair>) returns (id: Option<string>)
      requires Valid()
      modifies this, raw
      ensures Valid()
      ensures random.None? ==> id.None? && counter == old(counter) && raw[..] == old(raw[..])
      ensures random.Some? ==> counter == NextCounter(old(counter))
      ensures random.Some? ==> raw[..] == IdBytes(random.value, counter)
      ensures random.Some? ==> id == Some(IdFor(random.value, counter))
    {
      if random.None? {
        if failures > 10 {
          // the panic: `failures` is never incremented
          assert false;
        }
        return None;
      }
      raw[0], raw[1] := random.value.0, random.value.1;
      if counter == MaxUint16 {
        counter := 0;
      }
      counter := counter + 1;
      raw[2], raw[3] := counter / 256, counter % 256;
      assert raw[..] == IdBytes(random.value, counter);
      id := Some(Hex(raw[..]));
    }

    /** `generateID()` as its caller sees it: the next id, given the random
        bytes the producer read for it. */
    method Next(random: RandomPair) returns (id: string)
      requires Valid()
      modifies this, raw
      ensures Valid()
      ensures counter == NextCounter(old(counter))
      ensures id == IdFor(random, counter)
    {
      var emitted := Step(Some(random));
      id := emitted.value;
    }

    /** The producer loop run over a finite list of random-source draws;
        returns the ids it pushed, in order. */
    method Produce(draws: seq<Option<RandomPair>>) returns (ids: seq<string>)
      requires Valid()
      modifies this, raw
      ensures Valid()
      ensures ids == Emitted(old(counter), draws)
      ensures counter == CounterAfter(old(counter), Successes(draws))
    {
      ids := [];
      var i := 0;
      ghost var k := 0;
      assert draws[0..] == draws;
      while i < |draws|
        invariant Valid()
        invariant ProducedSoFar(old(counter), draws, i, ids, counter, k)
      {
        ghost var before := counter;
        var id := Step(draws[i]);
        if id.Some? {
          assert draws[i].Some? && counter == NextCounter(before);
          assert id.value == IdFor(draws[i].value, counter);
          ProduceAdvance(old(counter), draws, i, ids, before, k, id.value, counter);
          ids := ids + [id.value];
          k := k + 1;
        } else {
          ProduceRetry(old(counter), draws, i, ids, before, k);
        }
        i := i + 1;
      }
      ProduceDone(old(counter), draws, ids, counter, k);
    }
  }
}
