/** zend_adler32: the remainders are taken once in 5552 bytes, in 32-bit arithmetic. */
module Adler32 {

  const BASE: nat := 65521
  const NMAX: nat := 5552
  const TWO_16: nat := 0x1_0000
  const TWO_32: nat := 0x1_0000_0000

  /** What a signed char can hold of the bytes. */
  ghost predicate Ascii(data: seq<nat>) { forall i {:trigger data[i]} :: 0 <= i < |data| ==> data[i] < 128 }

  // ---- the definition

  /** The sum of the bytes, from s1 on. */
  function Sum1(s1: nat, data: seq<nat>): nat {
    if data == [] then s1 else Sum1(s1, data[..|data| - 1]) + data[|data| - 1]
  }

  /** The sum of all those sums, from s2 on. */
  function Sum2(s1: nat, s2: nat, data: seq<nat>): nat {
    if data == [] then s2 else Sum2(s1, s2, data[..|data| - 1]) + Sum1(s1, data)
  }

  function Low(checksum: nat): nat { checksum % TWO_16 }
  function High(checksum: nat): nat { checksum / TWO_16 % TWO_16 }

  /** The definition in section 8.2 of RFC 1950, carried on from a checksum. */
  function Adler(checksum: nat, data: seq<nat>): nat {
    Sum2(Low(checksum), High(checksum), data) % BASE * TWO_16 + Sum1(Low(checksum), data) % BASE
  }

  /** Without any bytes no remainder is taken. */
  function Checksum(checksum: nat, data: seq<nat>): nat { if data == [] then checksum else Adler(checksum, data) }

  /** The same with a remainder after every byte. */
  function Bytewise(s: (nat, nat), data: seq<nat>): (nat, nat) {
    if data == [] then s
    else
      var r := Bytewise(s, data[..|data| - 1]);
      var s1 := (r.0 + data[|data| - 1]) % BASE;
      (s1, (r.1 + s1) % BASE)
  }

  lemma ModAdd(a: nat, b: nat)
    ensures (a % BASE + b) % BASE == (a + b) % BASE
  {
  }

  lemma Congruent(a: nat, b: nat, x: nat, y: nat)
    requires a % BASE == b % BASE && x % BASE == y % BASE
    ensures (a + x) % BASE == (b + y) % BASE
  {
    ModAdd(a, x);
    ModAdd(b, x);
    ModAdd(x, b);
    ModAdd(y, b);
  }

  /** Only the remainders of the sums so far matter. */
  lemma {:induction false} SumsCongruent(s1: nat, s2: nat, t1: nat, t2: nat, data: seq<nat>)
    requires s1 % BASE == t1 % BASE && s2 % BASE == t2 % BASE
    ensures Sum1(s1, data) % BASE == Sum1(t1, data) % BASE && Sum2(s1, s2, data) % BASE == Sum2(t1, t2, data) % BASE
  {
    if data != [] {
      var d, b := data[..|data| - 1], data[|data| - 1];
      SumsCongruent(s1, s2, t1, t2, d);
      Congruent(Sum1(s1, d), Sum1(t1, d), b, b);
      Congruent(Sum2(s1, s2, d), Sum2(t1, t2, d), Sum1(s1, data), Sum1(t1, data));
    }
  }

  lemma {:induction false} BytewiseSums(s1: nat, s2: nat, data: seq<nat>)
    requires s1 < BASE && s2 < BASE
    ensures Bytewise((s1, s2), data) == (Sum1(s1, data) % BASE, Sum2(s1, s2, data) % BASE)
  {
    if data != [] {
      var d, b := data[..|data| - 1], data[|data| - 1];
      BytewiseSums(s1, s2, d);
      ModAdd(Sum1(s1, d), b);
      ModAdd(Sum2(s1, s2, d), Sum1(s1, data) % BASE);
      ModAdd(Sum1(s1, data), Sum2(s1, s2, d));
    }
  }

  lemma {:induction false} SumsAppend(s1: nat, s2: nat, a: seq<nat>, b: seq<nat>)
    ensures Sum1(s1, a + b) == Sum1(Sum1(s1, a), b)
    ensures Sum2(s1, s2, a + b) == Sum2(Sum1(s1, a), Sum2(s1, s2, a), b)
  {
    if b == [] {
      assert a + b == a;
    } else {
      assert (a + b)[..|a + b| - 1] == a + b[..|b| - 1];
      SumsAppend(s1, s2, a, b[..|b| - 1]);
    }
  }

  // ---- what the 32-bit code does

  function Add(x: nat, y: nat): nat { (x + y) % TWO_32 }

  /** ADLER32_DO1 for each byte */
  function Machine(s: (nat, nat), data: seq<nat>): (nat, nat) {
    if data == [] then s
    else
      var r := Machine(s, data[..|data| - 1]);
      (Add(r.0, data[|data| - 1]), Add(r.1, Add(r.0, data[|data| - 1])))
  }

  lemma {:induction false} MachineAppend(s: (nat, nat), a: seq<nat>, b: seq<nat>)
    ensures Machine(s, a + b) == Machine(Machine(s, a), b)
  {
    if b == [] {
      assert a + b == a;
    } else {
      assert (a + b)[..|a + b| - 1] == a + b[..|b| - 1];
      MachineAppend(s, a, b[..|b| - 1]);
    }
  }

  lemma {:induction false} SumsBound(s1: nat, s2: nat, data: seq<nat>, n: nat)
    requires Ascii(data) && |data| <= n
    ensures Sum1(s1, data) <= s1 + 127 * |data| && Sum2(s1, s2, data) <= s2 + |data| * (s1 + 127 * n)
  {
    if data != [] {
      var d := data[..|data| - 1];
      SumsBound(s1, s2, d, n);
      assert |data| * (s1 + 127 * n) == |d| * (s1 + 127 * n) + (s1 + 127 * n);
    }
  }

  lemma Bounded(s1: nat, s2: nat, data: seq<nat>)
    requires Ascii(data) && |data| <= NMAX && s1 < TWO_16 && s2 < TWO_16
    ensures Sum1(s1, data) < TWO_32 && Sum2(s1, s2, data) < TWO_32
  {
    SumsBound(s1, s2, data, NMAX);
    Product(|data|, NMAX, s1 + 127 * NMAX, TWO_16 - 1 + 127 * NMAX);
  }

  /** No sum reaches 2^32 between two remainders. */
  lemma {:induction false} NeverWraps(s1: nat, s2: nat, data: seq<nat>)
    requires Ascii(data) && |data| <= NMAX && s1 < TWO_16 && s2 < TWO_16
    ensures Sum1(s1, data) < TWO_32 && Sum2(s1, s2, data) < TWO_32
    ensures Machine((s1, s2), data) == (Sum1(s1, data), Sum2(s1, s2, data))
  {
    Bounded(s1, s2, data);
    if data != [] {
      NeverWraps(s1, s2, data[..|data| - 1]);
      MachineStep((s1, s2), data, Sum1(s1, data[..|data| - 1]), Sum2(s1, s2, data[..|data| - 1]));
    }
  }

  lemma MachineStep(s: (nat, nat), data: seq<nat>, r1: nat, r2: nat)
    requires data != [] && Machine(s, data[..|data| - 1]) == (r1, r2)
    requires r1 + data[|data| - 1] < TWO_32 && r2 + r1 + data[|data| - 1] < TWO_32
    ensures Machine(s, data) == (r1 + data[|data| - 1], r2 + r1 + data[|data| - 1])
  {
  }

  lemma Product(a: nat, b: nat, x: nat, y: nat)
    requires a <= b && x <= y
    ensures a * x <= b * y
  {
    assert b * y - a * x == (b - a) * y + a * (y - x);
  }

  /** Checksumming one part after the other gives the checksum of the whole. */
  lemma AdlerAppend(checksum: nat, a: seq<nat>, b: seq<nat>)
    ensures Adler(Adler(checksum, a), b) == Adler(checksum, a + b)
  {
    var s1, s2 := Low(checksum), High(checksum);
    var r := Adler(checksum, a);
    Halves(Sum1(s1, a) % BASE, Sum2(s1, s2, a) % BASE);
    SumsAppend(s1, s2, a, b);
    SumsCongruent(Low(r), High(r), Sum1(s1, a), Sum2(s1, s2, a), b);
  }

  lemma ChecksumAppend(checksum: nat, a: seq<nat>, b: seq<nat>)
    ensures Checksum(Checksum(checksum, a), b) == Checksum(checksum, a + b)
  {
    if a == [] {
      assert a + b == b;
    } else if b == [] {
      assert a + b == a;
    } else {
      AdlerAppend(checksum, a, b);
    }
  }

  /** From a checksum of reduced sums, as 1 is, it makes no difference if a remainder is taken after every byte. */
  lemma ChecksumBytewise(checksum: nat, data: seq<nat>)
    requires checksum < TWO_32 && Low(checksum) < BASE && High(checksum) < BASE
    ensures var (s1, s2) := Bytewise((Low(checksum), High(checksum)), data);
      Checksum(checksum, data) == s2 * TWO_16 + s1
    ensures Checksum(checksum, data) == Adler(checksum, data)
  {
    BytewiseSums(Low(checksum), High(checksum), data);
    JoinedEmpty(checksum);
  }

  lemma Halves(low: nat, high: nat)
    requires low < BASE && high < BASE
    ensures Low(high * TWO_16 + low) == low && High(high * TWO_16 + low) == high
  {
  }

  // ---- the code

  method Do1(buf: seq<nat>, at: nat, s1: nat, s2: nat) returns (r1: nat, r2: nat)
    requires at < |buf|
    ensures (r1, r2) == Machine((s1, s2), buf[at..at + 1])
  {
    r1 := Add(s1, buf[at]);
    r2 := Add(s2, r1);
    assert buf[at..at + 1][..0] == [];
  }

  method Do2(buf: seq<nat>, at: nat, s1: nat, s2: nat) returns (r1: nat, r2: nat)
    requires at + 2 <= |buf|
    ensures (r1, r2) == Machine((s1, s2), buf[at..at + 2])
  {
    r1, r2 := Do1(buf, at, s1, s2);
    r1, r2 := Do1(buf, at + 1, r1, r2);
    MachineSlices((s1, s2), buf, at, at + 1, at + 2);
  }

  method Do4(buf: seq<nat>, at: nat, s1: nat, s2: nat) returns (r1: nat, r2: nat)
    requires at + 4 <= |buf|
    ensures (r1, r2) == Machine((s1, s2), buf[at..at + 4])
  {
    r1, r2 := Do2(buf, at, s1, s2);
    r1, r2 := Do2(buf, at + 2, r1, r2);
    MachineSlices((s1, s2), buf, at, at + 2, at + 4);
  }

  method Do8(buf: seq<nat>, at: nat, s1: nat, s2: nat) returns (r1: nat, r2: nat)
    requires at + 8 <= |buf|
    ensures (r1, r2) == Machine((s1, s2), buf[at..at + 8])
  {
    r1, r2 := Do4(buf, at, s1, s2);
    r1, r2 := Do4(buf, at + 4, r1, r2);
    MachineSlices((s1, s2), buf, at, at + 4, at + 8);
  }

  method Do16(buf: seq<nat>, at: nat, s1: nat, s2: nat) returns (r1: nat, r2: nat)
    requires at + 16 <= |buf|
    ensures (r1, r2) == Machine((s1, s2), buf[at..at + 16])
  {
    r1, r2 := Do8(buf, at, s1, s2);
    r1, r2 := Do8(buf, at + 8, r1, r2);
    MachineSlices((s1, s2), buf, at, at + 8, at + 16);
  }

  lemma MachineSlices(s: (nat, nat), buf: seq<nat>, a: nat, b: nat, c: nat)
    requires a <= b <= c <= |buf|
    ensures Machine(s, buf[a..c]) == Machine(Machine(s, buf[a..b]), buf[b..c])
  {
    assert buf[a..c] == buf[a..b] + buf[b..c];
    MachineAppend(s, buf[a..b], buf[b..c]);
  }

  /** Sixteen bytes at a time */
  method Blocks(buf: seq<nat>, start: nat, end: nat, s1: nat, s2: nat) returns (r1: nat, r2: nat)
    requires start < end <= |buf| && (end - start) % 16 == 0
    ensures (r1, r2) == Machine((s1, s2), buf[start..end])
  {
    var at := start;
    r1, r2 := s1, s2;
    while at != end
      invariant start <= at <= end && (end - at) % 16 == 0
      invariant (r1, r2) == Machine((s1, s2), buf[start..at])
      decreases end - at
    {
      r1, r2 := Do16(buf, at, r1, r2);
      MachineSlices((s1, s2), buf, start, at, at + 16);
      at := at + 16;
    }
  }

  /** s1 and s2 stand for the sums of the first at bytes. */
  ghost predicate Summed(checksum: nat, buf: seq<nat>, at: nat, s1: nat, s2: nat)
    requires at <= |buf|
  {
    && s1 % BASE == Sum1(Low(checksum), buf[..at]) % BASE
    && s2 % BASE == Sum2(Low(checksum), High(checksum), buf[..at]) % BASE
  }

  /** One remainder for up to 5552 bytes that follow those summed already. */
  lemma Reduced(checksum: nat, buf: seq<nat>, at: nat, end: nat, s1: nat, s2: nat)
    requires Ascii(buf) && at <= end <= |buf| && end - at <= NMAX && s1 < TWO_16 && s2 < TWO_16
    requires Summed(checksum, buf, at, s1, s2)
    ensures var (r1, r2) := Machine((s1, s2), buf[at..end]); Summed(checksum, buf, end, r1 % BASE, r2 % BASE)
  {
    var d, a, b := buf[at..end], Low(checksum), High(checksum);
    NeverWraps(s1, s2, d);
    SumsCongruent(s1, s2, Sum1(a, buf[..at]), Sum2(a, b, buf[..at]), d);
    SumsAppend(a, b, buf[..at], d);
    assert buf[..end] == buf[..at] + d;
  }

  /** The bytes that are left when fewer than 5552 are. */
  method Rest(buf: seq<nat>, at: nat, s1: nat, s2: nat) returns (r1: nat, r2: nat)
    requires at < |buf|
    ensures (r1, r2) == Machine((s1, s2), buf[at..])
  {
    var len: nat, pos: nat := |buf| - at, at;
    r1, r2 := s1, s2;
    assert buf[at..at] == [];
    if len >= 16 {
      var end := pos + len / 16 * 16;
      len := len % 16;
      r1, r2 := Blocks(buf, pos, end, r1, r2);
      pos := end;
    }
    if len != 0 {
      var end := pos + len;
      while pos != end
        invariant at <= pos <= end && (r1, r2) == Machine((s1, s2), buf[at..pos])
        decreases end - pos
      {
        r1, r2 := Do1(buf, pos, r1, r2);
        MachineSlices((s1, s2), buf, at, pos, pos + 1);
        pos := pos + 1;
      }
    }
    assert buf[at..] == buf[at..pos];
  }

  /** 5552 bytes and a remainder, or what is left and a remainder */
  method Part(ghost checksum: nat, buf: seq<nat>, at: nat, end: nat, s1: nat, s2: nat) returns (r1: nat, r2: nat)
    requires Ascii(buf) && at < end <= |buf| && (end == at + NMAX || (end == |buf| && end - at < NMAX)) && s1 < TWO_16
    requires s2 < TWO_16
    requires Summed(checksum, buf, at, s1, s2)
    ensures r1 < BASE && r2 < BASE && Summed(checksum, buf, end, r1, r2)
  {
    Reduced(checksum, buf, at, end, s1, s2);
    if end == at + NMAX {
      r1, r2 := Blocks(buf, at, end, s1, s2);
    } else {
      assert buf[at..] == buf[at..end];
      r1, r2 := Rest(buf, at, s1, s2);
    }
    r1, r2 := r1 % BASE, r2 % BASE;
  }

  lemma Joined(checksum: nat, buf: seq<nat>, s1: nat, s2: nat)
    requires s1 < BASE && s2 < BASE && Summed(checksum, buf, |buf|, s1, s2)
    ensures s2 * TWO_16 + s1 == Adler(checksum, buf)
  {
    assert buf[..|buf|] == buf;
  }

  lemma JoinedEmpty(checksum: nat)
    requires checksum < TWO_32
    ensures High(checksum) * TWO_16 + Low(checksum) == checksum
  {
  }

  /** zend_adler32 */
  method ZendAdler32(checksum: nat, buf: seq<nat>) returns (r: nat)
    requires Ascii(buf) && checksum < TWO_32
    ensures r == Checksum(checksum, buf)
  {
    var s1: nat, s2: nat := Low(checksum), High(checksum);
    var at: nat := 0;
    while |buf| - at >= NMAX
      invariant at <= |buf| && s1 < TWO_16 && s2 < TWO_16 && Summed(checksum, buf, at, s1, s2)
      invariant if at == 0 then s1 == Low(checksum) && s2 == High(checksum) else s1 < BASE && s2 < BASE
    {
      s1, s2 := Part(checksum, buf, at, at + NMAX, s1, s2);
      at := at + NMAX;
    }
    if at < |buf| {
      s1, s2 := Part(checksum, buf, at, |buf|, s1, s2);
    }
    r := s2 * TWO_16 + s1;
    if buf == [] {
      JoinedEmpty(checksum);
    } else {
      Joined(checksum, buf, s1, s2);
    }
  }
}
