/** Strings as the two scripts build and read them: Python's `sep.join(parts)`,
    `s.split(sep)` for a one-character separator, and `str(n)` for a
    non-negative integer. */
module Text {

  predicate IsDigit(c: char) { '0' <= c <= '9' }

  predicate AllDigits(s: string) { forall i :: 0 <= i < |s| ==> IsDigit(s[i]) }

  /** `sep.join(parts)`. */
  function Join(parts: seq<string>, sep: string): string
  {
    if |parts| == 0 then ""
    else if |parts| == 1 then parts[0]
    else parts[0] + sep + Join(parts[1..], sep)
  }

  /** `s.split(c)`: the pieces between occurrences of `c`; never empty, and
      joining the pieces with `c` gives `s` back. */
  function Split(s: string, c: char): (pieces: seq<string>)
    ensures |pieces| >= 1
    ensures forall p :: p in pieces ==> c !in p
    ensures Join(pieces, [c]) == s
    decreases |s|
  {
    if s == [] then [""]
    else
      var rest := Split(s[1..], c);
      if s[0] == c then
        assert s == [c] + s[1..];
        [""] + rest
      else
        var first := [s[0]] + rest[0];
        assert c !in first;
        assert s == [s[0]] + s[1..];
        [first] + rest[1..]
  }

  /** No piece contains the separator character. */
  predicate FreeOf(parts: seq<string>, c: char)
  {
    forall i :: 0 <= i < |parts| ==> c !in parts[i]
  }

  lemma {:induction false} SplitFree(s: string, c: char)
    requires c !in s
    ensures Split(s, c) == [s]
    decreases |s|
  {
    if s != [] {
      SplitFree(s[1..], c);
      assert [s[0]] + s[1..] == s;
    }
  }

  lemma {:induction false} SplitAtFirst(a: string, b: string, c: char)
    requires c !in a
    ensures Split(a + [c] + b, c) == [a] + Split(b, c)
    decreases |a|
  {
    if a == [] {
      assert a + [c] + b == [c] + b;
      assert ([c] + b)[1..] == b;
    } else {
      var s := a + [c] + b;
      assert s[1..] == a[1..] + [c] + b;
      SplitAtFirst(a[1..], b, c);
      assert [a[0]] + a[1..] == a;
    }
  }

  /** Splitting a join on its own separator gives the parts back, provided no
      part contains the separator. */
  lemma {:induction false} SplitJoin(parts: seq<string>, c: char)
    requires |parts| >= 1
    requires FreeOf(parts, c)
    ensures Split(Join(parts, [c]), c) == parts
    decreases |parts|
  {
    if |parts| == 1 {
      SplitFree(parts[0], c);
    } else {
      SplitJoin(parts[1..], c);
      SplitAtFirst(parts[0], Join(parts[1..], [c]), c);
      assert [parts[0]] + parts[1..] == parts;
    }
  }

  /** A join of four parts, and its split: with the separator absent from
      the outer parts, splitting gives the four parts back exactly when the
      separator is absent from the inner ones too. */
  lemma JoinFour(a: string, b: string, c: string, d: string, ch: char)
    requires ch !in a && ch !in d
    ensures Join([a, b, c, d], [ch]) == a + [ch] + b + [ch] + c + [ch] + d
    ensures Split(a + [ch] + b + [ch] + c + [ch] + d, ch) == [a, b, c, d] <==> ch !in b && ch !in c
  {
    var parts := [a, b, c, d];
    assert Join(parts[3..], [ch]) == d;
    assert Join(parts[2..], [ch]) == c + [ch] + d;
    assert Join(parts[1..], [ch]) == b + [ch] + (c + [ch] + d);
    var s := a + [ch] + b + [ch] + c + [ch] + d;
    assert Join(parts, [ch]) == s;
    if ch !in b && ch !in c {
      assert FreeOf(parts, ch);
      SplitJoin(parts, ch);
    }
    if Split(s, ch) == parts {
      assert b in Split(s, ch) && c in Split(s, ch);
    }
  }

  /** A character absent from every part and from the separator is absent
      from the join. */
  lemma {:induction false} JoinFree(parts: seq<string>, sep: string, c: char)
    requires FreeOf(parts, c)
    requires c !in sep
    ensures c !in Join(parts, sep)
    decreases |parts|
  {
    if |parts| > 1 {
      JoinFree(parts[1..], sep, c);
    }
  }

  function DigitChar(d: nat): (c: char)
    requires d < 10
    ensures IsDigit(c)
  {
    ('0' as int + d) as char
  }

  function DigitValue(c: char): nat
    requires IsDigit(c)
  {
    c as int - '0' as int
  }

  /** `str(n)` for a non-negative integer: its decimal digits, most significant
      first, without leading zeros. */
  function Decimal(n: nat): (s: string)
    ensures |s| >= 1 && AllDigits(s)
    ensures |s| > 1 ==> s[0] != '0'
  {
    if n < 10 then [DigitChar(n)] else Decimal(n / 10) + [DigitChar(n % 10)]
  }

  /** `int(s)` for a string of decimal digits. */
  function DecimalValue(s: string): nat
    requires AllDigits(s)
  {
    if s == [] then 0 else DecimalValue(s[..|s| - 1]) * 10 + DigitValue(s[|s| - 1])
  }

  /** Reading back the rendering of `n` gives `n`. */
  lemma {:induction false} DecimalRoundTrip(n: nat)
    ensures DecimalValue(Decimal(n)) == n
  {
    if n >= 10 {
      DecimalRoundTrip(n / 10);
      var s := Decimal(n);
      assert s[..|s| - 1] == Decimal(n / 10);
    }
  }

  /** A string of digits contains no separator of the formats used here. */
  lemma DigitsFree(s: string, c: char)
    requires AllDigits(s)
    requires !IsDigit(c)
    ensures c !in s
  {
  }

  /** `str(n).zfill(width)` cut to its last `width` digits: exactly `width`
      digits. */
  function Padded(n: nat, width: nat): (s: string)
    ensures |s| == width && AllDigits(s)
  {
    if width == 0 then "" else Padded(n / 10, width - 1) + [DigitChar(n % 10)]
  }
}
