/** Small definitions shared by the other modules: an optional value, the
    C-string view of Dafny strings, and decimal rendering of integers as
    printf's `%d` does it. */
module Common {

  /** A value that may be absent: a NULL pointer, a Python `None`, an
      unset flag. */
  datatype Option<+T> = None | Some(value: T)

  /** A C string holds no NUL character: the first NUL ends it. */
  predicate NoNul(s: string) {
    forall k :: 0 <= k < |s| ==> s[k] != '\0'
  }

  /** A single line of text: no newline character. */
  predicate NoNewline(s: string) {
    forall k :: 0 <= k < |s| ==> s[k] != '\n'
  }

  /** The index of the first `c` in `s`. */
  function IndexOf(s: string, c: char): (r: Option<nat>)
    ensures r.Some? ==> r.value < |s| && s[r.value] == c
                        && forall k :: 0 <= k < r.value ==> s[k] != c
    ensures r.None? ==> forall k :: 0 <= k < |s| ==> s[k] != c
    decreases |s|
  {
    if |s| == 0 then None
    else if s[0] == c then Some(0)
    else match IndexOf(s[1..], c)
         case None => None
         case Some(j) => Some(j + 1)
  }

  /** `p` is a prefix of `s`. */
  predicate IsPrefix(p: string, s: string) {
    |p| <= |s| && s[..|p|] == p
  }

  /** The character `strncmp` sees at position `k` of a C string: the
      string's own character, or the terminating NUL past its end. */
  function CharAt(s: string, k: nat): char {
    if k < |s| then s[k] else '\0'
  }

  /** `strncmp(a, b, n) == 0` for C strings `a` and `b`: the first `n`
      positions agree, the comparison stopping early at a common NUL. */
  function StrNCmpZero(a: string, b: string, n: nat): bool
    decreases n
  {
    if n == 0 then true
    else if CharAt(a, 0) != CharAt(b, 0) then false
    else if CharAt(a, 0) == '\0' then true
    else StrNCmpZero(a[1..], b[1..], n - 1)
  }

  /** For NUL-free strings, `strncmp(tok, e, |e|) == 0` holds exactly when
      `e` is a prefix of `tok`. */
  lemma {:induction false} StrNCmpIsPrefix(tok: string, e: string)
    requires NoNul(tok) && NoNul(e)
    ensures StrNCmpZero(tok, e, |e|) <==> IsPrefix(e, tok)
    decreases |e|
  {
    if |e| == 0 {
    } else if |tok| == 0 {
      assert CharAt(e, 0) == e[0] != '\0';
    } else {
      assert CharAt(tok, 0) == tok[0] && CharAt(e, 0) == e[0];
      if tok[0] == e[0] {
        assert tok[0] != '\0';
        StrNCmpIsPrefix(tok[1..], e[1..]);
        assert NoNul(tok[1..]) by {
          forall k | 0 <= k < |tok[1..]| ensures tok[1..][k] != '\0' {
            assert tok[1..][k] == tok[k + 1];
          }
        }
        if IsPrefix(e, tok) {
          assert tok[1..][..|e[1..]|] == tok[..|e|][1..];
        }
        if IsPrefix(e[1..], tok[1..]) {
          assert tok[..|e|] == [tok[0]] + tok[1..][..|e[1..]|];
          assert e == [e[0]] + e[1..];
        }
      } else {
        if |e| <= |tok| {
          assert tok[..|e|][0] == tok[0] != e[0];
        }
      }
    }
  }

  /** The decimal digit character of `d`. */
  function Digit(d: nat): char
    requires d < 10
  {
    "0123456789"[d]
  }

  /** Every character of `s` is a decimal digit. */
  predicate AllDigits(s: string) {
    forall k :: 0 <= k < |s| ==> '0' <= s[k] <= '9'
  }

  /** The digits of `n` with no leading zero (`"0"` for zero). */
  function NatToDecimal(n: nat): (r: string)
    ensures |r| >= 1 && AllDigits(r)
    decreases n
  {
    if n < 10 then [Digit(n)] else NatToDecimal(n / 10) + [Digit(n % 10)]
  }

  /** printf's `%d`: a minus sign for negative values, then the digits. */
  function IntToDecimal(i: int): string {
    if i < 0 then "-" + NatToDecimal(-i) else NatToDecimal(i)
  }

  /** The value of a string of decimal digits. */
  function DecimalValue(s: string): nat
    requires AllDigits(s)
    decreases |s|
  {
    if |s| == 0 then 0
    else DecimalValue(s[..|s| - 1]) * 10 + (s[|s| - 1] as int - '0' as int)
  }

  /** Reads back an unsigned decimal: at least one digit and nothing else. */
  function ParseUnsigned(s: string): Option<nat> {
    if |s| >= 1 && AllDigits(s) then Some(DecimalValue(s)) else None
  }

  /** Reads back the text `%d` prints: an optional minus sign, then an
      unsigned decimal. */
  function ParseDecimal(s: string): Option<int> {
    if |s| >= 1 && s[0] == '-' then
      match ParseUnsigned(s[1..])
      case Some(v) => Some(0 - v)
      case None => None
    else
      match ParseUnsigned(s)
      case Some(v) => Some(v as int)
      case None => None
  }

  lemma DigitValue(d: nat)
    requires d < 10
    ensures Digit(d) as int - '0' as int == d
  {
    if d == 0 {} else if d == 1 {} else if d == 2 {} else if d == 3 {}
    else if d == 4 {} else if d == 5 {} else if d == 6 {} else if d == 7 {}
    else if d == 8 {} else {}
  }

  lemma {:induction false} NatToDecimalRoundTrip(n: nat)
    ensures DecimalValue(NatToDecimal(n)) == n
    decreases n
  {
    if n < 10 {
      DigitValue(n);
      var r := NatToDecimal(n);
      assert r[..|r| - 1] == [];
    } else {
      NatToDecimalRoundTrip(n / 10);
      DigitValue(n % 10);
      var r := NatToDecimal(n);
      assert r[..|r| - 1] == NatToDecimal(n / 10);
      assert r[|r| - 1] == Digit(n % 10);
      assert DecimalValue(r) == DecimalValue(NatToDecimal(n / 10)) * 10 + n % 10;
    }
  }

  /** `%d` output parses back to the value printed. */
  lemma IntToDecimalRoundTrip(i: int)
    ensures ParseDecimal(IntToDecimal(i)) == Some(i)
  {
    if i < 0 {
      var d := NatToDecimal(-i);
      NatToDecimalRoundTrip(-i);
      assert ParseUnsigned(d) == Some(-i);
      var r := "-" + d;
      assert r[1..] == d;
      assert IntToDecimal(i) == r;
    } else {
      NatToDecimalRoundTrip(i);
      var r := NatToDecimal(i);
      assert ParseUnsigned(r) == Some(i);
      assert r[0] != '-';
    }
  }

  /** Sum of a sequence of naturals. */
  function SumNat(s: seq<nat>): nat
    decreases |s|
  {
    if |s| == 0 then 0 else s[0] + SumNat(s[1..])
  }

  lemma SumNatAppend(a: seq<nat>, b: seq<nat>)
    ensures SumNat(a + b) == SumNat(a) + SumNat(b)
    decreases |a|
  {
    if |a| == 0 {
      assert a + b == b;
    } else {
      assert (a + b)[0] == a[0];
      assert (a + b)[1..] == a[1..] + b;
      SumNatAppend(a[1..], b);
    }
  }

  /** `a * w`: the offset of row `a` among rows of width `w`. It is
      defined by recursion so that index arithmetic is reasoned about
      through the lemmas below instead of as nonlinear arithmetic. */
  function Mul(a: nat, w: nat): nat
    decreases a
  {
    if a == 0 then 0 else Mul(a - 1, w) + w
  }

  lemma {:induction false} MulIsProduct(a: nat, w: nat)
    ensures Mul(a, w) == a * w
    decreases a
  {
    if a > 0 {
      MulIsProduct(a - 1, w);
    }
  }

  lemma MulAdd(a: nat, b: nat, w: nat)
    ensures Mul(a + b, w) == Mul(a, w) + Mul(b, w)
  {
    MulIsProduct(a + b, w);
    MulIsProduct(a, w);
    MulIsProduct(b, w);
  }

  lemma MulMono(a: nat, b: nat, w: nat)
    requires a <= b
    ensures Mul(a, w) <= Mul(b, w)
  {
    MulAdd(a, b - a, w);
  }

  lemma MulComm(a: nat, b: nat)
    ensures Mul(a, b) == Mul(b, a)
  {
    MulIsProduct(a, b);
    MulIsProduct(b, a);
  }

  lemma MulSucc(a: nat, b: nat)
    ensures Mul(a + 1, b) == Mul(a, b) + b
  {
  }

  lemma {:induction false} MulZero(a: nat)
    ensures Mul(a, 0) == 0
    decreases a
  {
    if a > 0 {
      MulZero(a - 1);
    }
  }

  lemma MulOne(a: nat)
    ensures Mul(a, 1) == a
  {
    MulIsProduct(a, 1);
  }

  /** An inclusive index range `first..last`, as the C code stores the
      first and last index a worker handles. */
  datatype Span = Span(first: int, last: int)

  predicate InSpan(s: Span, y: int) {
    s.first <= y <= s.last
  }

  /** The spans are non-empty, ascending and adjacent, starting at 0 and
      ending at `n - 1`: each index below `n` is handled exactly once. */
  predicate Tiles(rs: seq<Span>, n: nat) {
    && (|rs| == 0 <==> n == 0)
    && (|rs| > 0 ==> rs[0].first == 0 && rs[|rs| - 1].last == n - 1)
    && (forall i :: 0 <= i < |rs| ==> rs[i].first <= rs[i].last)
    && (forall i :: 0 < i < |rs| ==> rs[i].first == rs[i - 1].last + 1)
  }

  /** Tiling spans never overlap. */
  lemma {:induction false} TilesDisjoint(rs: seq<Span>, n: nat, i: nat, j: nat)
    requires Tiles(rs, n) && i < j < |rs|
    ensures rs[i].last < rs[j].first
    decreases j - i
  {
    if j > i + 1 {
      TilesDisjoint(rs, n, i, j - 1);
    }
  }

  /** Tiling spans lie within `0..n-1`. */
  lemma TilesWithin(rs: seq<Span>, n: nat, i: nat)
    requires Tiles(rs, n) && i < |rs|
    ensures 0 <= rs[i].first && rs[i].last < n
  {
    if i > 0 {
      TilesDisjoint(rs, n, 0, i);
    }
    if i < |rs| - 1 {
      TilesDisjoint(rs, n, i, |rs| - 1);
    }
  }

  /** Some span at or below `k` holds `y` when `y` is at most span `k`'s
      last index. */
  lemma {:induction false} FindSpan(rs: seq<Span>, n: nat, y: int, k: nat) returns (i: nat)
    requires Tiles(rs, n) && k < |rs| && 0 <= y <= rs[k].last
    ensures i <= k && InSpan(rs[i], y)
    decreases k
  {
    if rs[k].first <= y {
      i := k;
    } else {
      i := FindSpan(rs, n, y, k - 1);
    }
  }

  /** An index is handled by some span exactly when it lies below `n`, and
      then by only one. */
  lemma TilesCover(rs: seq<Span>, n: nat, y: int)
    requires Tiles(rs, n)
    ensures 0 <= y < n <==> exists i :: 0 <= i < |rs| && InSpan(rs[i], y)
    ensures forall i, j :: 0 <= i < |rs| && 0 <= j < |rs| && InSpan(rs[i], y) && InSpan(rs[j], y)
                           ==> i == j
  {
    if 0 <= y < n {
      var i := FindSpan(rs, n, y, |rs| - 1);
    }
    forall i | 0 <= i < |rs| && InSpan(rs[i], y) ensures 0 <= y < n {
      TilesWithin(rs, n, i);
    }
    forall i, j | 0 <= i < |rs| && 0 <= j < |rs| && InSpan(rs[i], y) && InSpan(rs[j], y)
      ensures i == j
    {
      if i < j {
        TilesDisjoint(rs, n, i, j);
      } else if j < i {
        TilesDisjoint(rs, n, j, i);
      }
    }
  }
}
