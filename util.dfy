/** Helpers of utils/util.go: membership search, base-10 integer parsing and
    formatting as `strconv` does it for 64-bit integers, `iterate`, `startNewRow`,
    `ToSnakeCase`, `strings.Split`/`strings.Join` on a one-character separator,
    and the padded Base64 encoding behind `Passkey`. */
module Util {
  import opened Wrappers

  // ---------------------------------------------------------------------------
  // 64-bit integers

  const MinInt64: int := -0x8000_0000_0000_0000
  const MaxInt64: int := 0x7FFF_FFFF_FFFF_FFFF
  const MaxUint64: int := 0xFFFF_FFFF_FFFF_FFFF

  predicate IsInt64(x: int) { MinInt64 <= x <= MaxInt64 }

  /** Two's-complement wrap-around of an int64 addition result. */
  function Wrap64(x: int): (r: int)
    ensures IsInt64(r)
    ensures IsInt64(x) ==> r == x
  {
    (x - MinInt64) % 0x1_0000_0000_0000_0000 + MinInt64
  }

  // ---------------------------------------------------------------------------
  // Decimal digits

  predicate IsDigit(c: char) { '0' <= c <= '9' }

  predicate AllDigits(s: string) { forall i :: 0 <= i < |s| ==> IsDigit(s[i]) }

  function DigitValue(c: char): (d: nat)
    requires IsDigit(c)
    ensures d < 10
  {
    c as int - '0' as int
  }

  function DigitChar(d: nat): (c: char)
    requires d < 10
    ensures IsDigit(c) && DigitValue(c) == d
  {
    ('0' as int + d) as char
  }

  /** The value of a digit string read left to right onto `acc`, as a loop over the bytes does. */
  function FoldDigits(s: string, acc: nat): nat
    requires AllDigits(s)
  {
    if s == [] then acc else FoldDigits(s[1..], acc * 10 + DigitValue(s[0]))
  }

  /** The shortest base-10 rendering of a natural number (no leading zeros). */
  function NatToDigits(n: nat): (r: string)
    ensures |r| >= 1 && AllDigits(r)
    ensures |r| > 1 ==> r[0] != '0'
  {
    if n < 10 then [DigitChar(n)] else NatToDigits(n / 10) + [DigitChar(n % 10)]
  }

  lemma {:induction false} FoldDigitsAppend(a: string, b: string, acc: nat)
    requires AllDigits(a) && AllDigits(b)
    ensures AllDigits(a + b)
    ensures FoldDigits(a + b, acc) == FoldDigits(b, FoldDigits(a, acc))
  {
    if a != [] {
      assert (a + b)[1..] == a[1..] + b;
      FoldDigitsAppend(a[1..], b, acc * 10 + DigitValue(a[0]));
    } else {
      assert a + b == b;
    }
  }

  lemma {:induction false} FoldDigitsAtLeast(s: string, acc: nat)
    requires AllDigits(s)
    ensures FoldDigits(s, acc) >= acc
  {
    if s != [] {
      FoldDigitsAtLeast(s[1..], acc * 10 + DigitValue(s[0]));
    }
  }

  /** Reading back the rendering of `n` gives `n`. */
  lemma {:induction false} NatToDigitsValue(n: nat)
    ensures FoldDigits(NatToDigits(n), 0) == n
  {
    if n >= 10 {
      NatToDigitsValue(n / 10);
      FoldDigitsAppend(NatToDigits(n / 10), [DigitChar(n % 10)], 0);
    }
  }

  // ---------------------------------------------------------------------------
  // strconv.ParseUint(s, 10, 64) and strconv.ParseInt(s, 10, 64)

  /** Outcome of Go's unsigned digit loop: a value, a syntax error (a non-digit byte
      met before any overflow), or a range error (the running value passed 2^64-1). */
  datatype UintScan = UintOk(n: nat) | UintSyntax | UintRange

  function ScanUint(s: string, acc: nat): UintScan
    requires acc <= MaxUint64
  {
    if s == [] then UintOk(acc)
    else if !IsDigit(s[0]) then UintSyntax
    else if acc > MaxUint64 / 10 then UintRange
    else if acc * 10 + DigitValue(s[0]) > MaxUint64 then UintRange
    else ScanUint(s[1..], acc * 10 + DigitValue(s[0]))
  }

  lemma {:induction false} ScanUintDigits(s: string, acc: nat)
    requires acc <= MaxUint64 && AllDigits(s) && FoldDigits(s, acc) <= MaxUint64
    ensures ScanUint(s, acc) == UintOk(FoldDigits(s, acc))
  {
    if s != [] {
      var next := acc * 10 + DigitValue(s[0]);
      FoldDigitsAtLeast(s[1..], next);
      ScanUintDigits(s[1..], next);
    }
  }

  /** Result of `strconv.ParseInt`: the value it returns and whether it returned an error. */
  datatype Parsed = Parsed(value: int, failed: bool)

  /** `strconv.ParseInt(s, 10, 64)`: an optional sign, then one or more decimal digits.
      A syntax error returns 0; a value outside int64 returns the nearest bound. */
  function ParseInt(s: string): (r: Parsed)
    ensures IsInt64(r.value)
    ensures r.failed ==> r.value == 0 || r.value == MinInt64 || r.value == MaxInt64
    ensures !r.failed ==> s != [] && (IsDigit(s[0]) || s[0] == '+' || s[0] == '-')
  {
    if s == [] then Parsed(0, true)
    else
      var neg := s[0] == '-';
      var body := if s[0] == '+' || s[0] == '-' then s[1..] else s;
      var scan := if body == [] then UintSyntax else ScanUint(body, 0);
      match scan
      case UintSyntax => Parsed(0, true)
      case UintRange => Parsed(if neg then MinInt64 else MaxInt64, true)
      case UintOk(un) =>
        if !neg && un > MaxInt64 then Parsed(MaxInt64, true)
        else if neg && un > -MinInt64 then Parsed(MinInt64, true)
        else Parsed(if neg then -(un as int) else un, false)
  }

  /** `strconv.FormatInt(x, 10)`. */
  function FormatInt(x: int): (r: string)
    ensures |r| >= 1 && (AllDigits(r) || (r[0] == '-' && AllDigits(r[1..])))
  {
    if x < 0 then "-" + NatToDigits(-x) else NatToDigits(x)
  }

  lemma {:induction false} ParseFormatInt(x: int)
    requires IsInt64(x)
    ensures ParseInt(FormatInt(x)) == Parsed(x, false)
  {
    var mag: nat := if x < 0 then -x else x;
    var digits := NatToDigits(mag);
    NatToDigitsValue(mag);
    ScanUintDigits(digits, 0);
    if x < 0 {
      assert FormatInt(x)[1..] == digits;
    } else {
      assert FormatInt(x) == digits;
    }
  }

  /** `Int64ToStr`: `strconv.FormatInt(aval, 10)`. */
  function Int64ToStr(aval: int): (r: string)
    requires IsInt64(aval)
    ensures ParseInt(r) == Parsed(aval, false)
  {
    ParseFormatInt(aval);
    FormatInt(aval)
  }

  /** `StrToInt64`: the parsed value, or 0 whenever `strconv.ParseInt` reports an error
      (including the range error, whose clamped value is discarded). */
  function StrToInt64(aval: string): (r: int)
    ensures IsInt64(r)
    ensures ParseInt(aval).failed ==> r == 0
    ensures !ParseInt(aval).failed ==> r == ParseInt(aval).value
  {
    var p := ParseInt(aval);
    if p.failed then 0 else p.value
  }

  /** `StrToInt`: `strconv.Atoi`, which on a 64-bit platform accepts and rejects exactly
      what `strconv.ParseInt(s, 10, 64)` does; 0 on error. */
  function StrToInt(aval: string): (r: int)
    ensures r == StrToInt64(aval)
  {
    var p := ParseInt(aval);
    if p.failed then 0 else p.value
  }

  lemma StrToInt64RoundTrip(x: int)
    requires IsInt64(x)
    ensures StrToInt64(Int64ToStr(x)) == x
    ensures StrToInt(Int64ToStr(x)) == x
  {
  }

  /** `utils.ParseInt(str, 10, 64)`: the value `strconv.ParseInt` returns together with a
      flag that is true exactly when it returned an error. */
  function ParseIntFlag(str: string): (r: (int, bool))
    ensures r.1 <==> ParseInt(str).failed
    ensures r.0 == ParseInt(str).value
  {
    var p := ParseInt(str);
    (p.value, p.failed)
  }

  lemma {:induction false} ScanUintOverflow(s: string, acc: nat)
    requires acc <= MaxUint64 && AllDigits(s) && FoldDigits(s, acc) > MaxUint64
    ensures ScanUint(s, acc) == UintRange
  {
    if s != [] {
      var next := acc * 10 + DigitValue(s[0]);
      if acc <= MaxUint64 / 10 && next <= MaxUint64 {
        ScanUintOverflow(s[1..], next);
      }
    }
  }

  /** Parsing the rendering of any integer gives it back when it fits in int64, and
      otherwise a range error with the nearer int64 bound (whether the magnitude
      overflows the unsigned loop or only the signed range). */
  lemma ParseFormatIntClamps(x: int)
    ensures ParseInt(FormatInt(x)) ==
      if IsInt64(x) then Parsed(x, false)
      else Parsed(if x < 0 then MinInt64 else MaxInt64, true)
  {
    var mag: nat := if x < 0 then -x else x;
    var digits := NatToDigits(mag);
    NatToDigitsValue(mag);
    if mag <= MaxUint64 {
      ScanUintDigits(digits, 0);
    } else {
      ScanUintOverflow(digits, 0);
    }
    if x < 0 {
      assert FormatInt(x)[1..] == digits;
    } else {
      assert FormatInt(x) == digits;
    }
  }

  lemma ParseIntExamples()
    ensures ParseInt("42") == Parsed(42, false)
    ensures ParseInt("-7") == Parsed(-7, false)
    ensures ParseInt("+7") == Parsed(7, false)
    ensures ParseInt("abc") == Parsed(0, true)
    ensures ParseInt("") == Parsed(0, true)
    ensures ParseInt("-") == Parsed(0, true)
    ensures ParseInt("4x") == Parsed(0, true)
  {
    assert ParseInt("42") == Parsed(42, false) by {
      assert "42"[1..] == "2" && "2"[1..] == "";
      assert ScanUint("42", 0) == ScanUint("2", 4) == ScanUint("", 42);
    }
    assert ParseInt("-7") == Parsed(-7, false) by {
      assert "-7"[1..] == "7" && "7"[1..] == "";
      assert ScanUint("7", 0) == ScanUint("", 7);
    }
    assert ParseInt("+7") == Parsed(7, false) by {
      assert "+7"[1..] == "7" && "7"[1..] == "";
      assert ScanUint("7", 0) == ScanUint("", 7);
    }
    assert ParseInt("-") == Parsed(0, true) by {
      assert "-"[1..] == "";
    }
    assert ParseInt("4x") == Parsed(0, true) by {
      assert "4x"[1..] == "x";
      assert ScanUint("4x", 0) == ScanUint("x", 4) == UintSyntax;
    }
  }


  // ---------------------------------------------------------------------------
  // strings.Split / strings.Join with a one-character separator

  /** `strings.Split(s, string(c))`: the pieces between occurrences of `c`; never empty. */
  function Split(s: string, c: char): (r: seq<string>)
    ensures |r| >= 1
  {
    if s == [] then [""]
    else
      var rest := Split(s[1..], c);
      if s[0] == c then [""] + rest else [[s[0]] + rest[0]] + rest[1..]
  }

  /** `strings.Join(parts, sep)`. */
  function Join(parts: seq<string>, sep: string): string
  {
    if |parts| == 0 then ""
    else if |parts| == 1 then parts[0]
    else parts[0] + sep + Join(parts[1..], sep)
  }

  /** Appending one part to a join. */
  lemma {:induction false} JoinSnoc(parts: seq<string>, x: string, sep: string)
    ensures Join(parts + [x], sep) == if parts == [] then x else Join(parts, sep) + sep + x
  {
    if |parts| == 1 {
      assert (parts + [x])[1..] == [x];
    } else if |parts| > 1 {
      assert (parts + [x])[1..] == parts[1..] + [x];
      JoinSnoc(parts[1..], x, sep);
    }
  }

  lemma {:induction false} SplitWithoutSeparator(s: string, c: char)
    requires c !in s
    ensures Split(s, c) == [s]
  {
    if s != [] {
      forall k | 0 <= k < |s[1..]| ensures s[1..][k] != c {
        assert s[1..][k] == s[k + 1];
      }
      SplitWithoutSeparator(s[1..], c);
      assert [s[0]] + s[1..] == s;
    }
  }

  /** No piece of a split contains the separator. */
  lemma {:induction false} SplitPiecesFree(s: string, c: char)
    ensures forall k :: 0 <= k < |Split(s, c)| ==> c !in Split(s, c)[k]
  {
    if s != [] {
      SplitPiecesFree(s[1..], c);
      var rest := Split(s[1..], c);
      if s[0] != c {
        var head := [s[0]] + rest[0];
        forall j | 0 <= j < |head| ensures head[j] != c {
          if j > 0 {
            assert head[j] == rest[0][j - 1];
          }
        }
        forall k | 1 <= k < |Split(s, c)| ensures c !in Split(s, c)[k] {
          assert Split(s, c)[k] == rest[k];
        }
      } else {
        forall k | 1 <= k < |Split(s, c)| ensures c !in Split(s, c)[k] {
          assert Split(s, c)[k] == rest[k - 1];
        }
      }
    }
  }

  /** Joining the pieces back with the separator gives the original string. */
  lemma {:induction false} JoinSplit(s: string, c: char)
    ensures Join(Split(s, c), [c]) == s
  {
    if s != [] {
      JoinSplit(s[1..], c);
      var rest := Split(s[1..], c);
      if s[0] == c {
        assert Split(s, c) == [""] + rest;
        assert ([""] + rest)[1..] == rest;
      } else {
        var parts := [[s[0]] + rest[0]] + rest[1..];
        assert Split(s, c) == parts;
        if |rest| == 1 {
          assert Join(parts, [c]) == [s[0]] + rest[0];
        } else {
          assert parts[1..] == rest[1..];
          assert Join(rest, [c]) == rest[0] + [c] + Join(rest[1..], [c]);
        }
        assert [s[0]] + s[1..] == s;
      }
    }
  }

  /** Splitting a join of separator-free pieces gives the pieces back. */
  lemma {:induction false} SplitJoin(parts: seq<string>, c: char)
    requires |parts| >= 1
    requires forall i :: 0 <= i < |parts| ==> c !in parts[i]
    ensures Split(Join(parts, [c]), c) == parts
  {
    if |parts| == 1 {
      SplitWithoutSeparator(parts[0], c);
    } else {
      SplitJoin(parts[1..], c);
      SplitPrefix(parts[0], c, Join(parts[1..], [c]));
      assert [parts[0]] + parts[1..] == parts;
    }
  }

  lemma {:induction false} SplitPrefix(p: string, c: char, tail: string)
    requires c !in p
    ensures Split(p + [c] + tail, c) == [p] + Split(tail, c)
  {
    if p == [] {
      assert p + [c] + tail == [c] + tail;
      assert ([c] + tail)[1..] == tail;
    } else {
      assert (p + [c] + tail)[1..] == p[1..] + [c] + tail;
      forall k | 0 <= k < |p[1..]| ensures p[1..][k] != c {
        assert p[1..][k] == p[k + 1];
      }
      SplitPrefix(p[1..], c, tail);
      assert [p[0]] + p[1..] == p;
    }
  }

  /** The blank `Join(parts, ", ")` leaves before part i: none before the first. */
  function Blank(i: nat): string
  {
    if i == 0 then "" else " "
  }

  /** Parts each preceded by a blank, joined with ",", are the parts joined with ", "
      after one leading blank. */
  lemma {:induction false} JoinBlanked(parts: seq<string>)
    requires |parts| >= 1
    ensures Join(seq(|parts|, i requires 0 <= i < |parts| => " " + parts[i]), ",") == " " + Join(parts, ", ")
  {
    var blanked := seq(|parts|, i requires 0 <= i < |parts| => " " + parts[i]);
    if |parts| > 1 {
      JoinBlanked(parts[1..]);
      assert blanked[1..] == seq(|parts[1..]|, i requires 0 <= i < |parts[1..]| => " " + parts[1..][i]);
    }
  }

  /** A list joined with ", ", split at ',', gives back its parts in order, each after
      the blank of its position, when no part contains ','. */
  lemma {:induction false} SplitCommaSpaceJoin(parts: seq<string>)
    requires |parts| >= 1
    requires forall i :: 0 <= i < |parts| ==> ',' !in parts[i]
    ensures var r := Split(Join(parts, ", "), ',');
      |r| == |parts| && forall i :: 0 <= i < |parts| ==> r[i] == Blank(i) + parts[i]
  {
    var rest := parts[1..];
    var blanked := seq(|rest|, i requires 0 <= i < |rest| => " " + rest[i]);
    var pieces := [parts[0]] + blanked;
    assert pieces[1..] == blanked;
    if |parts| > 1 {
      JoinBlanked(parts[1..]);
      assert Join(pieces, ",") == parts[0] + "," + (" " + Join(parts[1..], ", "));
      assert Join(pieces, ",") == Join(parts, ", ");
    }
    forall i | 0 <= i < |pieces| ensures ',' !in pieces[i] && pieces[i] == Blank(i) + parts[i] {
      if i > 0 {
        assert pieces[i] == " " + parts[i];
        forall k | 0 <= k < |pieces[i]| ensures pieces[i][k] != ',' {
          if k > 0 {
            assert pieces[i][k] == parts[i][k - 1];
          }
        }
      } else {
        assert Blank(0) + parts[0] == parts[0];
      }
    }
    SplitJoin(pieces, ',');
  }

  // ---------------------------------------------------------------------------
  // Membership

  /** The argument of `InArray`: Go's reflection either sees a slice or something else. */
  datatype Haystack<T> = Slice(items: seq<T>) | NotASlice

  /** `InArray`: the least index of an element equal to `val`, or (false, -1). */
  method InArray<T(==)>(val: T, haystack: Haystack<T>) returns (found: bool, index: int)
    ensures found <==> haystack.Slice? && val in haystack.items
    ensures found ==> 0 <= index < |haystack.items| && haystack.items[index] == val
    ensures found ==> forall j :: 0 <= j < index ==> haystack.items[j] != val
    ensures !found ==> index == -1
  {
    found := false;
    index := -1;
    if haystack.Slice? {
      var s := haystack.items;
      var i := 0;
      while i < |s|
        invariant 0 <= i <= |s|
        invariant forall j :: 0 <= j < i ==> s[j] != val
      {
        if s[i] == val {
          index := i;
          found := true;
          return;
        }
        i := i + 1;
      }
    }
  }

  /** `StringInSlice`. */
  method StringInSlice(a: string, list: seq<string>) returns (found: bool)
    ensures found <==> a in list
  {
    var i := 0;
    while i < |list|
      invariant 0 <= i <= |list|
      invariant a !in list[..i]
    {
      if list[i] == a {
        return true;
      }
      i := i + 1;
    }
    assert list[..i] == list;
    return false;
  }

  // ---------------------------------------------------------------------------
  // JoinInt64Array

  function Renderings(lns: seq<int>): (r: seq<string>)
    requires forall i :: 0 <= i < |lns| ==> IsInt64(lns[i])
    ensures |r| == |lns| && forall i :: 0 <= i < |lns| ==> r[i] == Int64ToStr(lns[i])
  {
    if lns == [] then [] else [Int64ToStr(lns[0])] + Renderings(lns[1..])
  }

  /** `JoinInt64Array`: the base-10 renderings joined by `sep`. */
  method JoinInt64Array(lns: seq<int>, sep: string) returns (r: string)
    requires forall i :: 0 <= i < |lns| ==> IsInt64(lns[i])
    ensures r == Join(Renderings(lns), sep)
  {
    var lnsStr: seq<string> := [];
    var ndx := 0;
    while ndx < |lns|
      invariant 0 <= ndx <= |lns|
      invariant lnsStr == Renderings(lns)[..ndx]
    {
      lnsStr := lnsStr + [Int64ToStr(lns[ndx])];
      ndx := ndx + 1;
    }
    assert lnsStr == Renderings(lns);
    r := Join(lnsStr, sep);
  }

  /** With a separator that is neither a digit nor '-', the joined text splits back into
      the renderings, and each of them parses back to its number. */
  lemma JoinInt64ArraySplits(lns: seq<int>, c: char, k: nat)
    requires |lns| >= 1 && forall i :: 0 <= i < |lns| ==> IsInt64(lns[i])
    requires !IsDigit(c) && c != '-'
    requires k < |lns|
    ensures |Split(Join(Renderings(lns), [c]), c)| == |lns|
    ensures ParseInt(Split(Join(Renderings(lns), [c]), c)[k]) == Parsed(lns[k], false)
  {
    var rs := Renderings(lns);
    forall i | 0 <= i < |rs| ensures c !in rs[i] {
      var s := FormatInt(lns[i]);
      forall j | 0 <= j < |s| ensures s[j] != c {
        if j > 0 && !AllDigits(s) {
          assert s[1..][j - 1] == s[j];
        }
      }
    }
    SplitJoin(rs, c);
  }

  // ---------------------------------------------------------------------------
  // iterate and startNewRow

  /** `iterate(start, count)`: start, start+1, ... up to the int64 value
      start+count-1 (computed with wrap-around, as the loop bound is). The loop only
      terminates when that bound is below the largest int64. */
  method Iterate(start: int, count: int) returns (items: seq<int>)
    requires IsInt64(start) && IsInt64(count)
    requires Wrap64(start + count - 1) < MaxInt64
    ensures var last := Wrap64(start + count - 1);
      |items| == (if last >= start then last - start + 1 else 0)
    ensures forall k :: 0 <= k < |items| ==> items[k] == start + k
    ensures IsInt64(start + count - 1) ==> |items| == (if count > 0 then count else 0)
  {
    var last := Wrap64(start + count - 1);
    items := [];
    var i := start;
    while i <= last
      invariant start <= i <= (if last >= start then last + 1 else start)
      invariant |items| == i - start
      invariant forall k :: 0 <= k < |items| ==> items[k] == start + k
      decreases last - i
    {
      items := items + [i];
      i := i + 1;
    }
  }

  /** Go's `%`: the remainder of division truncated toward zero (sign of the dividend). */
  function GoRem(a: int, b: int): (r: int)
    requires b != 0
  {
    var m := (if a < 0 then -a else a) % (if b < 0 then -b else b);
    if a < 0 then -m else m
  }

  lemma GoRemZero(a: int, b: int)
    requires b != 0
    ensures GoRem(a, b) == 0 <==> a % b == 0
  {
    var ab := if b < 0 then -b else b;
    if b < 0 {
      RemNegatedDivisor(a, b);
    }
    if a < 0 {
      RemNegatedDividend(a, ab);
    }
  }

  /** Dafny's remainder depends only on the divisor's magnitude. */
  lemma RemNegatedDivisor(a: int, b: int)
    requires b < 0
    ensures a % b == a % -b
  {
    assert a == b * (a / b) + a % b;
    assert a == (-b) * (-(a / b)) + a % b;
    DivModUnique(a, -b, -(a / b), a % b);
  }

  /** A number and its negation are divisible by the same positive numbers. */
  lemma RemNegatedDividend(a: int, b: int)
    requires b > 0
    ensures -a % b == 0 <==> a % b == 0
  {
    if -a % b == 0 {
      assert -a == b * (-a / b);
      assert a == b * (-(-a / b)) + 0;
      DivModUnique(a, b, -(-a / b), 0);
    }
    if a % b == 0 {
      assert a == b * (a / b);
      assert -a == b * (-(a / b)) + 0;
      DivModUnique(-a, b, -(a / b), 0);
    }
  }

  lemma DivModUnique(a: int, b: int, q: int, r: int)
    requires b > 0 && 0 <= r < b && a == b * q + r
    ensures a % b == r && a / b == q
  {
    var q0, r0 := a / b, a % b;
    assert a == b * q0 + r0;
    MulBound(b, q - q0);
    assert b * (q - q0) == r0 - r;
  }

  lemma MulBound(b: int, d: int)
    requires b > 0
    ensures d >= 1 ==> b * d >= b
    ensures d <= -1 ==> b * d <= -b
  {
    if d >= 1 {
      assert b * d == b * (d - 1) + b;
      assert b * (d - 1) >= 0;
    } else if d <= -1 {
      assert b * d == -(b * (-d - 1)) - b;
      assert b * (-d - 1) >= 0;
    }
  }

  /** `startNewRow(ndx, colCount)`: true iff `ndx` is 0 or a multiple of `colCount`.
      Go panics on a zero divisor, which only the `ndx == 0` shortcut avoids. */
  function StartNewRow(ndx: int, colCount: int): (r: bool)
    requires ndx == 0 || colCount != 0
    ensures r <==> ndx == 0 || ndx % colCount == 0
  {
    if ndx == 0 then true
    else
      GoRemZero(ndx, colCount);
      GoRem(ndx, colCount) == 0
  }

  // ---------------------------------------------------------------------------
  // ToSnakeCase

  predicate IsUpper(c: char) { 'A' <= c <= 'Z' }
  predicate IsLower(c: char) { 'a' <= c <= 'z' }

  /** Length of the longest prefix of lower-case ASCII letters. */
  function LowerRun(s: string): (n: nat)
    ensures n <= |s| && forall i :: 0 <= i < n ==> IsLower(s[i])
    ensures n < |s| ==> !IsLower(s[n])
  {
    if s != [] && IsLower(s[0]) then 1 + LowerRun(s[1..]) else 0
  }

  /** `regexp.MustCompile("(.)([A-Z][a-z]+)").ReplaceAllString(s, "${1}_${2}")`:
      scanning left to right, a match starts at any character other than a newline
      followed by an upper-case letter and a maximal run of lower-case letters. */
  function FirstCapPass(s: string): string
  {
    if |s| >= 3 && s[0] != '\n' && IsUpper(s[1]) && IsLower(s[2]) then
      var n := 2 + LowerRun(s[2..]);
      [s[0]] + "_" + s[1..n] + FirstCapPass(s[n..])
    else if s == [] then []
    else [s[0]] + FirstCapPass(s[1..])
  }

  /** `regexp.MustCompile("([a-z0-9])([A-Z])").ReplaceAllString(s, "${1}_${2}")`. */
  function AllCapPass(s: string): string
  {
    if |s| >= 2 && (IsLower(s[0]) || IsDigit(s[0])) && IsUpper(s[1]) then
      [s[0], '_', s[1]] + AllCapPass(s[2..])
    else if s == [] then []
    else [s[0]] + AllCapPass(s[1..])
  }

  function LowerChar(c: char): (r: char)
    ensures !IsUpper(r)
  {
    if IsUpper(c) then (c as int - 'A' as int + 'a' as int) as char else c
  }

  /** `strings.ToLower` restricted to ASCII: only 'A'..'Z' are lowered; Go's Unicode
      mapping of other letters is not modelled. */
  function ToLower(s: string): (r: string)
    ensures |r| == |s| && forall i :: 0 <= i < |s| ==> r[i] == LowerChar(s[i])
  {
    if s == [] then [] else [LowerChar(s[0])] + ToLower(s[1..])
  }

  /** `ToSnakeCase`, with ASCII lowering. */
  function ToSnakeCase(str: string): (r: string)
    ensures forall i :: 0 <= i < |r| ==> !IsUpper(r[i])
  {
    ToLower(AllCapPass(FirstCapPass(str)))
  }

  /** The string without its underscores. */
  function StripUnderscores(s: string): string
  {
    if s == [] then [] else (if s[0] == '_' then [] else [s[0]]) + StripUnderscores(s[1..])
  }

  lemma {:induction false} StripAppend(a: string, b: string)
    ensures StripUnderscores(a + b) == StripUnderscores(a) + StripUnderscores(b)
  {
    if a != [] {
      assert (a + b)[1..] == a[1..] + b;
      StripAppend(a[1..], b);
    } else {
      assert a + b == b;
    }
  }

  lemma {:induction false} FirstCapPassOnlyInserts(s: string)
    ensures StripUnderscores(FirstCapPass(s)) == StripUnderscores(s)
  {
    if |s| >= 3 && s[0] != '\n' && IsUpper(s[1]) && IsLower(s[2]) {
      var n := 2 + LowerRun(s[2..]);
      FirstCapPassOnlyInserts(s[n..]);
      StripAppend([s[0]] + "_" + s[1..n], FirstCapPass(s[n..]));
      StripAppend([s[0]] + "_", s[1..n]);
      StripAppend([s[0]], "_");
      StripAppend([s[0]], s[1..n]);
      StripAppend([s[0]] + s[1..n], s[n..]);
      assert [s[0]] + s[1..n] + s[n..] == s;
    } else if s != [] {
      FirstCapPassOnlyInserts(s[1..]);
      StripAppend([s[0]], FirstCapPass(s[1..]));
      StripAppend([s[0]], s[1..]);
      assert [s[0]] + s[1..] == s;
    }
  }

  lemma {:induction false} AllCapPassOnlyInserts(s: string)
    ensures StripUnderscores(AllCapPass(s)) == StripUnderscores(s)
  {
    if |s| >= 2 && (IsLower(s[0]) || IsDigit(s[0])) && IsUpper(s[1]) {
      AllCapPassOnlyInserts(s[2..]);
      StripAppend([s[0], '_', s[1]], AllCapPass(s[2..]));
      StripAppend([s[0], s[1]], s[2..]);
      assert StripUnderscores([s[0], '_', s[1]]) == [s[0], s[1]];
      assert StripUnderscores([s[0], s[1]]) == [s[0], s[1]];
      assert [s[0], s[1]] + s[2..] == s;
    } else if s != [] {
      AllCapPassOnlyInserts(s[1..]);
      StripAppend([s[0]], AllCapPass(s[1..]));
      StripAppend([s[0]], s[1..]);
      assert [s[0]] + s[1..] == s;
    }
  }

  lemma {:induction false} ToLowerKeepsStrip(s: string)
    ensures StripUnderscores(ToLower(s)) == ToLower(StripUnderscores(s))
  {
    if s != [] {
      ToLowerKeepsStrip(s[1..]);
      assert ToLower(s)[1..] == ToLower(s[1..]);
      if s[0] != '_' {
        assert ToLower([s[0]] + StripUnderscores(s[1..])) == [LowerChar(s[0])] + ToLower(StripUnderscores(s[1..]));
      }
    }
  }

  /** `ToSnakeCase` only lower-cases letters and inserts underscores: with the
      underscores taken out, its result is the lower-cased input. */
  lemma SnakeCaseOnlyInsertsUnderscores(str: string)
    ensures StripUnderscores(ToSnakeCase(str)) == ToLower(StripUnderscores(str))
  {
    FirstCapPassOnlyInserts(str);
    AllCapPassOnlyInserts(FirstCapPass(str));
    ToLowerKeepsStrip(AllCapPass(FirstCapPass(str)));
  }

  lemma {:induction false} FirstCapPassNoUpper(s: string)
    requires forall i :: 0 <= i < |s| ==> !IsUpper(s[i])
    ensures FirstCapPass(s) == s
  {
    if s != [] {
      FirstCapPassNoUpper(s[1..]);
      assert [s[0]] + s[1..] == s;
    }
  }

  lemma {:induction false} AllCapPassNoUpper(s: string)
    requires forall i :: 0 <= i < |s| ==> !IsUpper(s[i])
    ensures AllCapPass(s) == s
  {
    if s != [] {
      AllCapPassNoUpper(s[1..]);
      assert [s[0]] + s[1..] == s;
    }
  }

  /** A name without ASCII upper-case letters is already in snake case (under ASCII
      lowering). */
  lemma SnakeCaseOfLowerIsIdentity(str: string)
    requires forall i :: 0 <= i < |str| ==> !IsUpper(str[i])
    ensures ToSnakeCase(str) == str
  {
    FirstCapPassNoUpper(str);
    AllCapPassNoUpper(str);
    assert ToLower(str) == str;
  }

  lemma SnakeCaseJobId()
    ensures ToSnakeCase("JobID") == "job_id"
  {
    FirstCapJobId();
    AllCapJobId();
    assert ToLower("Job_ID") == "job_id";
  }

  lemma FirstCapJobId()
    ensures FirstCapPass("JobID") == "JobID"
  {
    assert "JobID"[1..] == "obID" && "obID"[1..] == "bID" && "bID"[1..] == "ID";
    assert "ID"[1..] == "D" && "D"[1..] == "";
  }

  lemma AllCapJobId()
    ensures AllCapPass("JobID") == "Job_ID"
  {
    assert "JobID"[1..] == "obID" && "obID"[1..] == "bID" && "bID"[2..] == "D";
    assert "D"[1..] == "";
  }

  lemma SnakeCaseId()
    ensures ToSnakeCase("ID") == "id"
  {
    assert FirstCapPass("ID") == "ID" by {
      assert "ID"[1..] == "D" && "D"[1..] == "";
    }
    assert AllCapPass("ID") == "ID" by {
      assert "ID"[1..] == "D" && "D"[1..] == "";
    }
  }

  // ---------------------------------------------------------------------------
  // Base64 (RFC 4648, section 4, with padding) and Passkey

  /** The character for a 6-bit group in the standard alphabet (RFC 4648, table 1). */
  function Sextet(v: int): (c: char)
    requires 0 <= v < 64
  {
    if v < 26 then ('A' as int + v) as char
    else if v < 52 then ('a' as int + (v - 26)) as char
    else if v < 62 then ('0' as int + (v - 52)) as char
    else if v == 62 then '+'
    else '/'
  }

  /** The 6-bit group a character of the standard alphabet stands for. */
  function SextetValue(c: char): Option<int>
  {
    if 'A' <= c <= 'Z' then Some(c as int - 'A' as int)
    else if 'a' <= c <= 'z' then Some(c as int - 'a' as int + 26)
    else if '0' <= c <= '9' then Some(c as int - '0' as int + 52)
    else if c == '+' then Some(62)
    else if c == '/' then Some(63)
    else None
  }

  lemma SextetRoundTrip(v: int)
    requires 0 <= v < 64
    ensures SextetValue(Sextet(v)) == Some(v) && Sextet(v) != '='
  {
  }

  /** `base64.StdEncoding.EncodeToString`: each three bytes become four characters; a
      final group of one or two bytes is padded with "=" to four characters. */
  function Base64Encode(b: seq<byte>): (r: string)
    ensures |r| == 4 * ((|b| + 2) / 3)
  {
    if |b| == 0 then ""
    else if |b| == 1 then
      [Sextet(b[0] as int / 4), Sextet(b[0] as int % 4 * 16), '=', '=']
    else if |b| == 2 then
      [Sextet(b[0] as int / 4), Sextet(b[0] as int % 4 * 16 + b[1] as int / 16),
       Sextet(b[1] as int % 16 * 4), '=']
    else EncodeQuantum(b[0] as int, b[1] as int, b[2] as int) + Base64Encode(b[3..])
  }

  /** Three bytes as four characters. */
  function EncodeQuantum(b0: int, b1: int, b2: int): (r: string)
    requires 0 <= b0 < 256 && 0 <= b1 < 256 && 0 <= b2 < 256
    ensures |r| == 4
  {
    [Sextet(b0 / 4), Sextet(b0 % 4 * 16 + b1 / 16), Sextet(b1 % 16 * 4 + b2 / 64), Sextet(b2 % 64)]
  }

  /** A reference decoder for the padded standard encoding, used to state what the
      encoder preserves. */
  function Base64Decode(s: string): Option<seq<byte>>
  {
    if s == [] then Some([])
    else if |s| < 4 then None
    else
      var v0, v1, v2, v3 := SextetValue(s[0]), SextetValue(s[1]), SextetValue(s[2]), SextetValue(s[3]);
      if v0.None? || v1.None? then None
      else if |s| == 4 && s[2] == '=' && s[3] == '=' then
        Some([(v0.value * 4 + v1.value / 16) as byte])
      else if v2.None? then None
      else if |s| == 4 && s[3] == '=' then
        Some([(v0.value * 4 + v1.value / 16) as byte, (v1.value % 16 * 16 + v2.value / 4) as byte])
      else if v3.None? then None
      else
        match Base64Decode(s[4..])
        case None => None
        case Some(rest) =>
          Some([(v0.value * 4 + v1.value / 16) as byte, (v1.value % 16 * 16 + v2.value / 4) as byte,
                (v2.value % 4 * 64 + v3.value) as byte] + rest)
  }

  lemma QuantumArithmetic(b0: int, b1: int, b2: int)
    requires 0 <= b0 < 256 && 0 <= b1 < 256 && 0 <= b2 < 256
    ensures (b0 / 4) * 4 + (b0 % 4 * 16 + b1 / 16) / 16 == b0
    ensures (b0 % 4 * 16 + b1 / 16) % 16 * 16 + (b1 % 16 * 4 + b2 / 64) / 4 == b1
    ensures (b1 % 16 * 4 + b2 / 64) % 4 * 64 + b2 % 64 == b2
  {
  }

  lemma DecodeQuantum(x0: byte, x1: byte, x2: byte, rest: string, tail: seq<byte>)
    requires Base64Decode(rest) == Some(tail)
    ensures Base64Decode(EncodeQuantum(x0 as int, x1 as int, x2 as int) + rest) == Some([x0, x1, x2] + tail)
  {
    var b0, b1, b2 := x0 as int, x1 as int, x2 as int;
    QuantumArithmetic(b0, b1, b2);
    var v0, v1, v2, v3 := b0 / 4, b0 % 4 * 16 + b1 / 16, b1 % 16 * 4 + b2 / 64, b2 % 64;
    SextetRoundTrip(v0);
    SextetRoundTrip(v1);
    SextetRoundTrip(v2);
    SextetRoundTrip(v3);
    var s := EncodeQuantum(b0, b1, b2) + rest;
    assert s[0] == Sextet(v0) && s[1] == Sextet(v1) && s[2] == Sextet(v2) && s[3] == Sextet(v3);
    assert s[4..] == rest;
  }

  lemma DecodeTwo(b0: int, b1: int)
    requires 0 <= b0 < 256 && 0 <= b1 < 256
    ensures Base64Decode([Sextet(b0 / 4), Sextet(b0 % 4 * 16 + b1 / 16), Sextet(b1 % 16 * 4), '='])
      == Some([b0 as byte, b1 as byte])
  {
    QuantumArithmetic(b0, b1, 0);
    SextetRoundTrip(b0 / 4);
    SextetRoundTrip(b0 % 4 * 16 + b1 / 16);
    SextetRoundTrip(b1 % 16 * 4);
  }

  lemma DecodeOne(b0: int)
    requires 0 <= b0 < 256
    ensures Base64Decode([Sextet(b0 / 4), Sextet(b0 % 4 * 16), '=', '=']) == Some([b0 as byte])
  {
    QuantumArithmetic(b0, 0, 0);
    SextetRoundTrip(b0 / 4);
    SextetRoundTrip(b0 % 4 * 16);
  }

  /** Decoding an encoding gives the bytes back. */
  lemma {:induction false} Base64RoundTrip(b: seq<byte>)
    ensures Base64Decode(Base64Encode(b)) == Some(b)
  {
    if |b| >= 3 {
      Base64RoundTrip(b[3..]);
      var rest := Base64Encode(b[3..]);
      assert Base64Encode(b) == EncodeQuantum(b[0] as int, b[1] as int, b[2] as int) + rest;
      DecodeQuantum(b[0], b[1], b[2], rest, b[3..]);
      assert [b[0], b[1], b[2]] + b[3..] == b;
    } else if |b| == 2 {
      PairRoundTrip(b);
    } else if |b| == 1 {
      SingleRoundTrip(b);
    }
  }

  lemma PairRoundTrip(b: seq<byte>)
    requires |b| == 2
    ensures Base64Decode(Base64Encode(b)) == Some(b)
  {
    var b0, b1 := b[0] as int, b[1] as int;
    assert Base64Encode(b) == [Sextet(b0 / 4), Sextet(b0 % 4 * 16 + b1 / 16), Sextet(b1 % 16 * 4), '='];
    DecodeTwo(b0, b1);
    assert [b0 as byte, b1 as byte] == b;
  }

  lemma SingleRoundTrip(b: seq<byte>)
    requires |b| == 1
    ensures Base64Decode(Base64Encode(b)) == Some(b)
  {
    var b0 := b[0] as int;
    assert Base64Encode(b) == [Sextet(b0 / 4), Sextet(b0 % 4 * 16), '=', '='];
    DecodeOne(b0);
    assert [b0 as byte] == b;
  }


  /** The concatenation of byte strings. */
  function Flatten(parts: seq<seq<byte>>): seq<byte>
  {
    if parts == [] then [] else Flatten(parts[..|parts| - 1]) + parts[|parts| - 1]
  }

  /** `Passkey`: nine 16-byte UUIDs (supplied, since they are random) concatenated and
      Base64-encoded; the key always has 192 characters and decodes to those 144 bytes. */
  method Passkey(uuids: seq<seq<byte>>) returns (key: string)
    requires |uuids| == 9 && forall i :: 0 <= i < 9 ==> |uuids[i]| == 16
    ensures key == Base64Encode(Flatten(uuids))
    ensures |key| == 192
    ensures Base64Decode(key) == Some(Flatten(uuids))
  {
    var p: seq<byte> := [];
    var i := 0;
    while i < 9
      invariant 0 <= i <= 9 && |p| == 16 * i
      invariant p == Flatten(uuids[..i])
    {
      assert uuids[..i + 1][..i] == uuids[..i];
      p := p + uuids[i];
      i := i + 1;
    }
    assert uuids[..9] == uuids;
    key := Base64Encode(p);
    Base64RoundTrip(p);
  }
}
