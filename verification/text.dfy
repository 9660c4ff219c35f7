/** The Kotlin string operations the application leans on, restricted to the
    ASCII range: case folding (`lowercase`, `uppercase`, `equals(ignoreCase)`),
    whitespace (`trim`, `isBlank`), substring search (`contains`,
    `startsWith`), `split`/`joinToString`, and the decimal conversions
    `String.toIntOrNull` and `Int.toString`. */
module Text {
  import opened Base

  // ---------------------------------------------------------------- case

  function Lower(c: char): char {
    if 'A' <= c <= 'Z' then (c as int + 32) as char else c
  }

  function Upper(c: char): char {
    if 'a' <= c <= 'z' then (c as int - 32) as char else c
  }

  function LowerStr(s: string): (r: string)
    ensures |r| == |s|
    ensures forall i :: 0 <= i < |s| ==> r[i] == Lower(s[i])
  {
    if |s| == 0 then "" else [Lower(s[0])] + LowerStr(s[1..])
  }

  function UpperStr(s: string): (r: string)
    ensures |r| == |s|
    ensures forall i :: 0 <= i < |s| ==> r[i] == Upper(s[i])
  {
    if |s| == 0 then "" else [Upper(s[0])] + UpperStr(s[1..])
  }

  /** Kotlin `a.equals(b, ignoreCase = true)`: same length and every pair of
      characters equal up to case. */
  predicate EqualsIgnoreCase(a: string, b: string) {
    |a| == |b| && forall i :: 0 <= i < |a| ==> Lower(a[i]) == Lower(b[i])
  }

  /** Comparing ignoring case is comparing the lower-case forms. */
  lemma EqualsIgnoreCaseIsLowerEquality(a: string, b: string)
    ensures EqualsIgnoreCase(a, b) <==> LowerStr(a) == LowerStr(b)
  {
    if LowerStr(a) == LowerStr(b) {
      assert forall i :: 0 <= i < |a| ==> Lower(a[i]) == LowerStr(a)[i];
    }
  }

  // ---------------------------------------------------------- whitespace

  /** `Char.isWhitespace` on the ASCII range: tab, line feed, vertical tab,
      form feed, carriage return, the four information separators and space. */
  predicate IsWhitespace(c: char) {
    c == ' ' || (9 <= c as int <= 13) || (28 <= c as int <= 31)
  }

  /** `CharSequence.isBlank()`: empty or whitespace only. */
  predicate IsBlank(s: string) {
    forall i :: 0 <= i < |s| ==> IsWhitespace(s[i])
  }

  function SkipLeading(s: string, i: nat): (r: nat)
    requires i <= |s|
    ensures i <= r <= |s|
    ensures forall k :: i <= k < r ==> IsWhitespace(s[k])
    ensures r < |s| ==> !IsWhitespace(s[r])
    decreases |s| - i
  {
    if i == |s| || !IsWhitespace(s[i]) then i else SkipLeading(s, i + 1)
  }

  function SkipTrailing(s: string, lo: nat, j: nat): (r: nat)
    requires lo <= j <= |s|
    ensures lo <= r <= j
    ensures forall k :: r <= k < j ==> IsWhitespace(s[k])
    ensures lo < r ==> !IsWhitespace(s[r - 1])
    decreases j
  {
    if j == lo || !IsWhitespace(s[j - 1]) then j else SkipTrailing(s, lo, j - 1)
  }

  /** `s[lo..hi]` is what remains once all surrounding whitespace is gone. */
  predicate TrimmedSlice(s: string, lo: int, hi: int) {
    && 0 <= lo <= hi <= |s|
    && (forall k :: 0 <= k < lo ==> IsWhitespace(s[k]))
    && (forall k :: hi <= k < |s| ==> IsWhitespace(s[k]))
    && (lo < hi ==> !IsWhitespace(s[lo]) && !IsWhitespace(s[hi - 1]))
  }

  /** Where `trim()` cuts: the first non-whitespace position and one past the
      last one. */
  function TrimBounds(s: string): (b: (nat, nat))
    ensures TrimmedSlice(s, b.0, b.1)
  {
    var lo := SkipLeading(s, 0);
    (lo, SkipTrailing(s, lo, |s|))
  }

  /** Kotlin `trim()`. */
  function Trim(s: string): string {
    s[TrimBounds(s).0..TrimBounds(s).1]
  }

  /** A trimmed string neither starts nor ends with whitespace. */
  lemma TrimHasNoSurroundingWhitespace(s: string)
    ensures var t := Trim(s); |t| > 0 ==> !IsWhitespace(t[0]) && !IsWhitespace(t[|t| - 1])
  {
    var (lo, hi) := TrimBounds(s);
    assert lo < hi ==> Trim(s)[0] == s[lo] && Trim(s)[|Trim(s)| - 1] == s[hi - 1];
  }

  /** A string is blank exactly when trimming leaves nothing. */
  lemma BlankIffTrimEmpty(s: string)
    ensures IsBlank(s) <==> Trim(s) == ""
  {
    var (lo, hi) := TrimBounds(s);
    if Trim(s) == "" {
      assert lo == hi;
    } else {
      assert !IsWhitespace(s[lo]);
    }
  }

  /** Trimming a string that has no surrounding whitespace gives it back. */
  lemma TrimOfTrimmed(s: string)
    requires |s| > 0 ==> !IsWhitespace(s[0]) && !IsWhitespace(s[|s| - 1])
    ensures Trim(s) == s
  {
    var (lo, hi) := TrimBounds(s);
  }

  // ----------------------------------------------------------- searching

  /** Kotlin `startsWith(prefix)`. */
  predicate StartsWith(s: string, prefix: string) {
    |prefix| <= |s| && s[..|prefix|] == prefix
  }

  /** `t` occurs in `s` starting at position `i`. */
  predicate OccursAt(s: string, t: string, i: int) {
    0 <= i && i + |t| <= |s| && s[i..i + |t|] == t
  }

  /** Kotlin `s.contains(t)`: some position of `s` starts an occurrence of
      `t`; the empty string is contained in every string. */
  function Contains(s: string, t: string): (r: bool)
    ensures r <==> exists i :: OccursAt(s, t, i)
    decreases |s|
  {
    if StartsWith(s, t) then
      assert OccursAt(s, t, 0);
      true
    else if |s| == 0 then
      assert forall i :: !OccursAt(s, t, i);
      false
    else
      var rest := Contains(s[1..], t);
      if rest then
        var i :| OccursAt(s[1..], t, i);
        assert s[i + 1..i + 1 + |t|] == s[1..][i..i + |t|];
        assert OccursAt(s, t, i + 1);
        true
      else
        forall i | 0 < i && OccursAt(s, t, i) ensures OccursAt(s[1..], t, i - 1) {
          assert s[1..][i - 1..i - 1 + |t|] == s[i..i + |t|];
        }
        assert !OccursAt(s, t, 0) by { if |t| <= |s| { assert s[0..|t|] == s[..|t|]; } }
        false
  }

  // ---------------------------------------------------- split and join

  /** Kotlin `s.split(sep)` for a one-character delimiter: every piece between
      delimiters, keeping empty pieces (also the leading and trailing ones).
      Built from the back: the first character either is a delimiter, which
      opens a new empty piece, or joins the first piece of the rest. */
  function Split(s: string, sep: char): (parts: seq<string>)
    ensures |parts| >= 1
  {
    if |s| == 0 then [""]
    else
      var rest := Split(s[1..], sep);
      if s[0] == sep then [""] + rest
      else [[s[0]] + rest[0]] + rest[1..]
  }

  /** No piece of a split contains the delimiter. */
  lemma {:induction false} SplitPiecesAvoidSeparator(s: string, sep: char)
    ensures forall k :: 0 <= k < |Split(s, sep)| ==> sep !in Split(s, sep)[k]
  {
    if |s| > 0 {
      SplitPiecesAvoidSeparator(s[1..], sep);
    }
  }

  /** Kotlin `parts.joinToString(sep)`. */
  function Join(parts: seq<string>, sep: string): string {
    if |parts| == 0 then ""
    else if |parts| == 1 then parts[0]
    else parts[0] + sep + Join(parts[1..], sep)
  }

  /** Splitting on a character and joining back with it restores the string:
      `split` loses nothing but the delimiters. */
  lemma {:induction false} JoinSplit(s: string, sep: char)
    ensures Join(Split(s, sep), [sep]) == s
  {
    if |s| > 0 {
      var rest := Split(s[1..], sep);
      JoinSplit(s[1..], sep);
      if s[0] == sep {
        JoinCons("", rest, [sep]);
      } else {
        JoinPrepend(s[0], rest, [sep]);
      }
      assert s == [s[0]] + s[1..];
    }
  }

  lemma JoinCons(first: string, tail: seq<string>, sep: string)
    requires |tail| >= 1
    ensures Join([first] + tail, sep) == first + sep + Join(tail, sep)
  {
    assert ([first] + tail)[1..] == tail;
  }

  /** Joining two non-empty lists of pieces is joining each and putting the
      separator between. */
  lemma {:induction false} JoinAppend(xs: seq<string>, ys: seq<string>, sep: string)
    requires |xs| >= 1 && |ys| >= 1
    ensures Join(xs + ys, sep) == Join(xs, sep) + sep + Join(ys, sep)
    decreases |xs|
  {
    if |xs| == 1 {
      assert xs + ys == [xs[0]] + ys;
      JoinCons(xs[0], ys, sep);
    } else {
      JoinAppend(xs[1..], ys, sep);
      assert xs + ys == [xs[0]] + (xs[1..] + ys);
      JoinCons(xs[0], xs[1..] + ys, sep);
      assert xs == [xs[0]] + xs[1..];
      JoinCons(xs[0], xs[1..], sep);
    }
  }

  /** Putting a character in front of the first piece puts it in front of the
      joined string. */
  lemma JoinPrepend(c: char, parts: seq<string>, sep: string)
    requires |parts| >= 1
    ensures Join([[c] + parts[0]] + parts[1..], sep) == [c] + Join(parts, sep)
  {
    var xs := [[c] + parts[0]] + parts[1..];
    if |parts| > 1 {
      assert xs[1..] == parts[1..];
    }
  }

  /** A piece free of the delimiter, followed by the delimiter, splits off
      as a piece of its own. */
  lemma {:induction false} SplitAfterPiece(w: string, sep: char, t: string)
    requires sep !in w
    ensures Split(w + [sep] + t, sep) == [w] + Split(t, sep)
    decreases |w|
  {
    if |w| == 0 {
      assert w + [sep] + t == [sep] + t;
      assert ([sep] + t)[1..] == t;
    } else {
      var s := w + [sep] + t;
      assert s[1..] == w[1..] + [sep] + t;
      SplitAfterPiece(w[1..], sep, t);
      assert [w[0]] + w[1..] == w;
    }
  }

  /** A delimiter-free string is one piece. */
  lemma {:induction false} SplitOfPiece(w: string, sep: char)
    requires sep !in w
    ensures Split(w, sep) == [w]
    decreases |w|
  {
    if |w| > 0 {
      SplitOfPiece(w[1..], sep);
      assert [w[0]] + w[1..] == w;
    }
  }

  /** Joining delimiter-free pieces and splitting again gives the pieces
      back. */
  lemma {:induction false} SplitJoin(parts: seq<string>, sep: char)
    requires |parts| >= 1
    requires forall k :: 0 <= k < |parts| ==> sep !in parts[k]
    ensures Split(Join(parts, [sep]), sep) == parts
    decreases |parts|
  {
    if |parts| == 1 {
      SplitOfPiece(parts[0], sep);
    } else {
      SplitJoin(parts[1..], sep);
      SplitAfterPiece(parts[0], sep, Join(parts[1..], [sep]));
      assert [parts[0]] + parts[1..] == parts;
    }
  }

  // ------------------------------------------------------------ numbers

  predicate IsDigit(c: char) { '0' <= c <= '9' }

  predicate AllDigits(s: string) {
    forall i :: 0 <= i < |s| ==> IsDigit(s[i])
  }

  function DigitValue(c: char): nat
    requires IsDigit(c)
  {
    c as int - '0' as int
  }

  function DigitChar(d: nat): (c: char)
    requires d < 10
    ensures IsDigit(c) && DigitValue(c) == d
  {
    ('0' as int + d) as char
  }

  /** The value of a string of decimal digits, most significant first. */
  function DigitsValue(s: string): nat
    requires AllDigits(s)
  {
    if |s| == 0 then 0
    else DigitsValue(s[..|s| - 1]) * 10 + DigitValue(s[|s| - 1])
  }

  /** Kotlin `String.toIntOrNull()`: an optional `+` or `-` followed by at
      least one decimal digit, whose value fits a 32-bit `Int`; anything else
      is null. */
  function ParseInt(s: string): (r: Option<int>)
    ensures r.Some? ==> IsInt32(r.value)
    ensures r.Some? ==> |s| > 0
  {
    if |s| == 0 then None
    else
      var negative := s[0] == '-';
      var start := if s[0] == '-' || s[0] == '+' then 1 else 0;
      var digits := s[start..];
      if |digits| == 0 || !AllDigits(digits) then None
      else
        var v := DigitsValue(digits);
        if negative then (if -(v as int) >= INT_MIN then Some(-(v as int)) else None)
        else (if v <= INT_MAX then Some(v) else None)
  }

  /** The decimal digits of a natural number, without leading zeros. */
  function NatDigits(n: nat): (s: string)
    ensures |s| >= 1 && AllDigits(s)
  {
    if n < 10 then [DigitChar(n)]
    else NatDigits(n / 10) + [DigitChar(n % 10)]
  }

  /** Kotlin `Int.toString()`. */
  function IntToString(n: int): string {
    if n < 0 then "-" + NatDigits(-n) else NatDigits(n)
  }

  lemma {:induction false} NatDigitsValue(n: nat)
    ensures DigitsValue(NatDigits(n)) == n
  {
    if n >= 10 {
      NatDigitsValue(n / 10);
      var s := NatDigits(n);
      assert s[..|s| - 1] == NatDigits(n / 10);
    }
  }

  /** What `Int.toString` prints, `toIntOrNull` reads back: a capacity that is
      shown in a text field and submitted unchanged keeps its value. */
  lemma ParseIntOfIntToString(n: int)
    requires IsInt32(n)
    ensures ParseInt(IntToString(n)) == Some(n)
  {
    var s := IntToString(n);
    if n < 0 {
      NatDigitsValue(-n);
      assert s[1..] == NatDigits(-n);
    } else {
      NatDigitsValue(n);
      assert s[0] != '-' && s[0] != '+';
      assert s[0..] == s;
    }
  }
}
