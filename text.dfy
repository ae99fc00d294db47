/** Text handling shared by the workers and the schedulers: the whitespace classes of the C
    locale and of Python's str methods, word splitting (C++ `stream >> word`, Python
    `str.split()`, `str.split(sep)`, `str.strip()`), decimal printing of integers (C++
    `to_string`, Python `str` of an int) and the integer readers the source uses (C `atoi`,
    C++ `stream >> n` into an `int`, Python `int(...)`).  The round-trip lemmas at the end are
    what makes a reply printed by a worker readable by a scheduler. */
module Text {

  datatype Option<T> = None | Some(value: T)

  /** Which characters count as whitespace. */
  datatype Blanks =
    | CLocale    // isspace in the "C" locale: space, \t, \n, \v, \f, \r
    | PyUnicode  // the characters Python's str.split() and str.strip() remove

  predicate IsBlank(b: Blanks, c: char)
  {
    match b
    case CLocale => c == ' ' || '\t' <= c <= '\r'
    case PyUnicode =>
      || '\t' <= c <= '\r'
      || '\U{1C}' <= c <= '\U{1F}'
      || c == ' ' || c == '\U{85}' || c == '\U{A0}' || c == '\U{1680}'
      || '\U{2000}' <= c <= '\U{200A}'
      || c == '\U{2028}' || c == '\U{2029}' || c == '\U{202F}' || c == '\U{205F}'
      || c == '\U{3000}'
  }

  predicate IsDigit(c: char) { '0' <= c <= '9' }

  predicate AllDigits(s: string) { forall i :: 0 <= i < |s| ==> IsDigit(s[i]) }

  /** A non-empty string without whitespace: what a split can yield. */
  predicate IsWord(b: Blanks, w: string)
  {
    w != [] && forall i :: 0 <= i < |w| ==> !IsBlank(b, w[i])
  }

  predicate AllBlank(b: Blanks, s: string) { forall i :: 0 <= i < |s| ==> IsBlank(b, s[i]) }

  predicate StartsWith(s: string, prefix: string)
  {
    |prefix| <= |s| && s[..|prefix|] == prefix
  }

  // ---------------------------------------------------------------- whitespace and words

  /** s without its leading whitespace. */
  function TrimStart(b: Blanks, s: string): (r: string)
    ensures |r| <= |s| && r == s[|s| - |r|..]
    ensures r == [] || !IsBlank(b, r[0])
    ensures forall i :: 0 <= i < |s| - |r| ==> IsBlank(b, s[i])
  {
    if s != [] && IsBlank(b, s[0]) then TrimStart(b, s[1..]) else s
  }

  /** s without its trailing whitespace. */
  function TrimEnd(b: Blanks, s: string): (r: string)
    ensures |r| <= |s| && r == s[..|r|]
    ensures r == [] || !IsBlank(b, r[|r| - 1])
    ensures forall i :: |r| <= i < |s| ==> IsBlank(b, s[i])
  {
    if s != [] && IsBlank(b, s[|s| - 1]) then TrimEnd(b, s[..|s| - 1]) else s
  }

  /** Python's s.strip(). */
  function Strip(s: string): (r: string)
    ensures |r| <= |s|
  {
    TrimEnd(PyUnicode, TrimStart(PyUnicode, s))
  }

  /** Length of the longest prefix of s without whitespace. */
  function WordLength(b: Blanks, s: string): (n: nat)
    ensures n <= |s|
    ensures forall i :: 0 <= i < n ==> !IsBlank(b, s[i])
    ensures n == |s| || IsBlank(b, s[n])
  {
    if s == [] || IsBlank(b, s[0]) then 0 else 1 + WordLength(b, s[1..])
  }

  /** The maximal runs of non-whitespace of s, in order: Python's s.split() when b is
      PyUnicode. */
  function Split(b: Blanks, s: string): (ws: seq<string>)
    ensures forall k :: 0 <= k < |ws| ==> IsWord(b, ws[k])
    decreases |s|
  {
    var t := TrimStart(b, s);
    if t == [] then []
    else
      var n := WordLength(b, t);
      var rest := Split(b, t[n..]);
      FirstWord(b, t);
      ConsWord(b, t[..n], rest);
      [t[..n]] + rest
  }

  /** The first run of non-whitespace of a string that starts with one is a word. */
  lemma FirstWord(b: Blanks, t: string)
    requires t != [] && !IsBlank(b, t[0])
    ensures 0 < WordLength(b, t) && IsWord(b, t[..WordLength(b, t)])
  {
  }

  lemma ConsWord(b: Blanks, w: string, ws: seq<string>)
    requires IsWord(b, w) && forall k :: 0 <= k < |ws| ==> IsWord(b, ws[k])
    ensures forall k :: 0 <= k < |[w] + ws| ==> IsWord(b, ([w] + ws)[k])
  {
  }

  /** C++ `stream >> word` on a string stream positioned at the start of s: the first word
      (empty when s is all whitespace) and what the stream has left after it. */
  function ReadWord(s: string): (r: (string, string))
    ensures r.0 == [] || IsWord(CLocale, r.0)
    ensures r.0 == (if Split(CLocale, s) == [] then [] else Split(CLocale, s)[0])
  {
    var t := TrimStart(CLocale, s);
    var n := WordLength(CLocale, t);
    (t[..n], t[n..])
  }

  /** Words joined by single spaces: how the source's messages and replies are built. */
  function Unwords(ws: seq<string>): string
  {
    if ws == [] then ""
    else if |ws| == 1 then ws[0]
    else ws[0] + " " + Unwords(ws[1..])
  }

  /** Position of the first sep in s, or |s| when there is none. */
  function IndexOf(s: string, sep: char): (i: nat)
    ensures i <= |s| && sep !in s[..i]
    ensures i < |s| ==> s[i] == sep
  {
    if s == [] then 0
    else if s[0] == sep then 0
    else 1 + IndexOf(s[1..], sep)
  }

  /** Python's s.split(sep) for a one-character separator. */
  function SplitOn(s: string, sep: char): (parts: seq<string>)
    ensures |parts| >= 1
    ensures forall k :: 0 <= k < |parts| ==> sep !in parts[k]
    decreases |s|
  {
    var i := IndexOf(s, sep);
    if i == |s| then [s] else [s[..i]] + SplitOn(s[i + 1..], sep)
  }

  /** Python's sep.join(parts) for a one-character separator. */
  function JoinOn(parts: seq<string>, sep: char): string
  {
    if parts == [] then ""
    else if |parts| == 1 then parts[0]
    else parts[0] + [sep] + JoinOn(parts[1..], sep)
  }

  // ---------------------------------------------------------------- printing integers

  function DigitChar(d: nat): (c: char)
    requires d < 10
    ensures IsDigit(c)
  {
    (d + 48) as char
  }

  function DigitValue(c: char): nat
    requires IsDigit(c)
  {
    (c as int) - ('0' as int)
  }

  /** Decimal digits of n, without leading zeros. */
  function NatToString(n: nat): (s: string)
    ensures s != [] && AllDigits(s)
    ensures |s| > 1 ==> s[0] != '0'
  {
    if n < 10 then [DigitChar(n)] else NatToString(n / 10) + [DigitChar(n % 10)]
  }

  /** C++ to_string(i) and Python str(i) / f"{i}" for an integer i. */
  function IntToString(i: int): (s: string)
    ensures IsWord(CLocale, s) && IsWord(PyUnicode, s)
    ensures s[0] == '-' || IsDigit(s[0])
  {
    if i < 0 then "-" + NatToString(-i) else NatToString(i)
  }

  // ---------------------------------------------------------------- reading integers

  /** Value of a string of decimal digits. */
  function DigitsValue(s: string): nat
    requires AllDigits(s)
  {
    if s == [] then 0 else 10 * DigitsValue(s[..|s| - 1]) + DigitValue(s[|s| - 1])
  }

  /** Number of leading decimal digits of s. */
  function DigitRun(s: string): (n: nat)
    ensures n <= |s| && AllDigits(s[..n])
    ensures n == |s| || !IsDigit(s[n])
  {
    if s != [] && IsDigit(s[0]) then 1 + DigitRun(s[1..]) else 0
  }

  /** An optional leading sign: whether it was '-', and what follows it. */
  function SignOf(s: string): (bool, string)
  {
    if s != [] && (s[0] == '+' || s[0] == '-') then (s[0] == '-', s[1..]) else (false, s)
  }

  /** The integer at the very front of s: an optional sign and the longest run of digits
      after it; None when no digit follows the sign. */
  function LeadingInt(s: string): Option<int>
  {
    var (neg, u) := SignOf(s);
    var k := DigitRun(u);
    if k == 0 then None
    else
      var v: int := DigitsValue(u[..k]);
      Some(if neg then -v else v)
  }

  /** C atoi(s): leading whitespace skipped, then LeadingInt, 0 when there is no digit. */
  function Atoi(s: string): (r: int)
    ensures (forall i :: 0 <= i < |s| ==> !IsDigit(s[i])) ==> r == 0
  {
    NoDigitNoInt(TrimStart(CLocale, s), s);
    match LeadingInt(TrimStart(CLocale, s))
    case Some(v) => v
    case None => 0
  }

  const IntMin: int := -0x8000_0000
  const IntMax: int := 0x7FFF_FFFF

  /** What C++ stores in an int when the value read is out of its range. */
  function ClampInt(v: int): (r: int)
    ensures IntMin <= r <= IntMax
    ensures IntMin <= v <= IntMax ==> r == v
  {
    if v < IntMin then IntMin else if v > IntMax then IntMax else v
  }

  /** C++ `stream >> n` for an int n on what the stream has left: None when nothing but
      whitespace is left (the read fails before it starts and n keeps the value it had);
      otherwise the value read, clamped to int range, or 0 when no digit follows. */
  function ExtractInt(rest: string): (r: Option<int>)
    ensures r.None? <==> AllBlank(CLocale, rest)
    ensures r.Some? ==> IntMin <= r.value <= IntMax
  {
    var t := TrimStart(CLocale, rest);
    if t == [] then None
    else
      match LeadingInt(t)
      case Some(v) => Some(ClampInt(v))
      case None => Some(0)
  }

  /** An underscore between two digits. */
  predicate IsGroupSeparator(u: string, i: int)
    requires 0 <= i < |u|
  {
    u[i] == '_' && 0 < i < |u| - 1 && IsDigit(u[i - 1]) && IsDigit(u[i + 1])
  }

  /** Digits in groups separated by single underscores, as Python's int() accepts them. */
  predicate PyDigits(u: string)
  {
    u != [] && forall i :: 0 <= i < |u| ==> IsDigit(u[i]) || IsGroupSeparator(u, i)
  }

  /** u with its underscores removed. */
  function RemoveUnderscores(u: string): (r: string)
    requires forall i :: 0 <= i < |u| ==> IsDigit(u[i]) || u[i] == '_'
    ensures AllDigits(r) && |r| <= |u|
  {
    if u == [] then []
    else if u[0] == '_' then RemoveUnderscores(u[1..])
    else [u[0]] + RemoveUnderscores(u[1..])
  }

  /** Python int(s) in base 10 for ASCII digits: None where Python raises ValueError. */
  function PyInt(s: string): (r: Option<int>)
    ensures r.Some? ==> Strip(s) != []
  {
    var (neg, u) := SignOf(Strip(s));
    if !PyDigits(u) then None
    else
      var v: int := DigitsValue(RemoveUnderscores(u));
      Some(if neg then -v else v)
  }

  // ---------------------------------------------------------------- lemmas

  lemma {:induction false} DigitsValueOfNatToString(n: nat)
    ensures DigitsValue(NatToString(n)) == n
  {
    if n >= 10 {
      DigitsValueOfNatToString(n / 10);
      var s := NatToString(n);
      assert s[..|s| - 1] == NatToString(n / 10);
    }
  }

  lemma {:induction false} DigitRunOfDigits(d: string, tail: string)
    requires AllDigits(d)
    requires tail == [] || !IsDigit(tail[0])
    ensures DigitRun(d + tail) == |d|
  {
    if d != [] {
      assert (d + tail)[1..] == d[1..] + tail;
      DigitRunOfDigits(d[1..], tail);
    } else {
      assert d + tail == tail;
    }
  }

  lemma {:induction false} RemoveUnderscoresOfDigits(d: string)
    requires AllDigits(d)
    ensures RemoveUnderscores(d) == d
  {
    if d != [] {
      RemoveUnderscoresOfDigits(d[1..]);
    }
  }

  /** A string whose characters all come from a digitless s has no leading integer. */
  lemma NoDigitNoInt(t: string, s: string)
    requires |t| <= |s| && t == s[|s| - |t|..]
    ensures (forall i :: 0 <= i < |s| ==> !IsDigit(s[i])) ==> LeadingInt(t).None?
  {
    if forall i :: 0 <= i < |s| ==> !IsDigit(s[i]) {
      var u := SignOf(t).1;
      if u != [] {
        assert u[0] == s[|s| - |u|];
      }
    }
  }

  /** The integer printed by IntToString is read back by LeadingInt, whatever non-digit
      follows it. */
  lemma LeadingIntOfIntToString(i: int, tail: string)
    requires tail == [] || !IsDigit(tail[0])
    ensures LeadingInt(IntToString(i) + tail) == Some(i)
  {
    var n: nat := if i < 0 then -i else i;
    var d := NatToString(n);
    DigitsValueOfNatToString(n);
    if i < 0 {
      SignedDigits(true, "-", d, tail);
    } else {
      SignedDigits(false, "", d, tail);
      assert "" + d == d;
    }
  }

  /** An optional '-' followed by digits and then a non-digit is read as that number. */
  lemma SignedDigits(neg: bool, sign: string, d: string, tail: string)
    requires sign == (if neg then "-" else "")
    requires d != [] && AllDigits(d)
    requires tail == [] || !IsDigit(tail[0])
    ensures LeadingInt(sign + d + tail) == Some(if neg then -(DigitsValue(d) as int) else DigitsValue(d) as int)
  {
    DigitsFront(d, tail);
    SignedFront(neg, sign, d, tail);
    LeadingIntOfRun(sign + d + tail, neg, d + tail, d);
  }

  /** An optional '-' before a string that starts with no sign is read as the sign. */
  lemma SignedFront(neg: bool, sign: string, d: string, tail: string)
    requires sign == (if neg then "-" else "")
    requires SignOf(d + tail) == (false, d + tail)
    ensures SignOf(sign + d + tail) == (neg, d + tail)
  {
    var u := d + tail;
    assert sign + d + tail == sign + u;
    if neg {
      assert (sign + u)[0] == '-' && (sign + u)[1..] == u;
    } else {
      assert sign + u == u;
    }
  }

  /** LeadingInt once the sign and the digit run are known. */
  lemma LeadingIntOfRun(s: string, neg: bool, u: string, d: string)
    requires SignOf(s) == (neg, u)
    requires d != [] && DigitRun(u) == |d| && u[..|d|] == d
    ensures AllDigits(d)
    ensures LeadingInt(s) == Some(if neg then -(DigitsValue(d) as int) else DigitsValue(d) as int)
  {
  }

  /** Digits followed by a non-digit: no sign, and the digit run is exactly the digits. */
  lemma DigitsFront(d: string, tail: string)
    requires d != [] && AllDigits(d)
    requires tail == [] || !IsDigit(tail[0])
    ensures SignOf(d + tail) == (false, d + tail)
    ensures DigitRun(d + tail) == |d| && (d + tail)[..|d|] == d
  {
    DigitRunOfDigits(d, tail);
    assert (d + tail)[..|d|] == d;
    assert (d + tail)[0] == d[0];
  }

  /** atoi reads back what to_string printed. */
  lemma AtoiOfIntToString(i: int, tail: string)
    requires tail == [] || !IsDigit(tail[0])
    ensures Atoi(IntToString(i) + tail) == i
  {
    LeadingIntOfIntToString(i, tail);
  }

  /** A C++ stream extraction into an int reads back what to_string printed, after any
      whitespace, as long as it fits in an int. */
  lemma ExtractIntOfIntToString(i: int, blanks: string, tail: string)
    requires IntMin <= i <= IntMax
    requires AllBlank(CLocale, blanks)
    requires tail == [] || !IsDigit(tail[0])
    ensures ExtractInt(blanks + IntToString(i) + tail) == Some(i)
  {
    var p := IntToString(i);
    LeadingIntOfIntToString(i, tail);
    assert (p + tail)[0] == p[0];
    ExtractIntAfterBlanks(blanks, p + tail, i);
    Regroup(blanks, p, tail);
  }

  /** Whitespace is skipped, then a number within int range is read as itself. */
  lemma ExtractIntAfterBlanks(blanks: string, s: string, i: int)
    requires AllBlank(CLocale, blanks)
    requires s != [] && !IsBlank(CLocale, s[0])
    requires LeadingInt(s) == Some(i) && IntMin <= i <= IntMax
    ensures ExtractInt(blanks + s) == Some(i)
  {
    TrimStartOverBlanks(CLocale, blanks, s);
  }

  /** Whitespace in front of a string that starts with a non-blank is exactly what
      TrimStart removes. */
  lemma {:induction false} TrimStartOverBlanks(b: Blanks, blanks: string, s: string)
    requires AllBlank(b, blanks)
    requires s != [] && !IsBlank(b, s[0])
    ensures TrimStart(b, blanks + s) == s
  {
    if blanks != [] {
      assert (blanks + s)[1..] == blanks[1..] + s;
      TrimStartOverBlanks(b, blanks[1..], s);
    } else {
      assert blanks + s == s;
    }
  }

  /** Whitespace after a string that ends with a non-blank is exactly what TrimEnd removes. */
  lemma {:induction false} TrimEndOverBlanks(b: Blanks, s: string, blanks: string)
    requires AllBlank(b, blanks)
    requires s != [] && !IsBlank(b, s[|s| - 1])
    ensures TrimEnd(b, s + blanks) == s
  {
    if blanks != [] {
      var short := blanks[..|blanks| - 1];
      assert (s + blanks)[..|s + blanks| - 1] == s + short;
      TrimEndOverBlanks(b, s, short);
    } else {
      assert s + blanks == s;
    }
  }

  /** The word at the front of w + rest is w when whitespace (or nothing) follows w. */
  lemma WordLengthOfWord(b: Blanks, w: string, rest: string)
    requires IsWord(b, w)
    requires rest == [] || IsBlank(b, rest[0])
    ensures WordLength(b, w + rest) == |w|
  {
    var s := w + rest;
    assert forall i :: 0 <= i < |w| ==> s[i] == w[i];
    assert |s| == |w| || s[|w|] == rest[0];
  }

  /** Python's strip() removes exactly the whitespace around a word. */
  lemma StripAroundWord(before: string, w: string, after: string)
    requires AllBlank(PyUnicode, before) && AllBlank(PyUnicode, after)
    requires IsWord(PyUnicode, w)
    ensures Strip(before + w + after) == w
  {
    assert (w + after)[0] == w[0];
    TrimStartOverBlanks(PyUnicode, before, w + after);
    Regroup(before, w, after);
    TrimEndOverBlanks(PyUnicode, w, after);
  }

  /** Python's int() reads back what str() printed, with any whitespace around it. */
  lemma PyIntOfIntToString(i: int, before: string, after: string)
    requires AllBlank(PyUnicode, before) && AllBlank(PyUnicode, after)
    ensures PyInt(before + IntToString(i) + after) == Some(i)
  {
    StripAroundWord(before, IntToString(i), after);
    PyIntOfStripped(before + IntToString(i) + after, i);
  }

  /** int() reads i back from any string that strips to str(i). */
  lemma PyIntOfStripped(x: string, i: int)
    requires Strip(x) == IntToString(i)
    ensures PyInt(x) == Some(i)
  {
    var n: nat := if i < 0 then -i else i;
    SignOfIntToString(i);
    RemoveUnderscoresOfDigits(NatToString(n));
    DigitsValueOfNatToString(n);
  }

  lemma SignOfIntToString(i: int)
    ensures SignOf(IntToString(i)) == (i < 0, NatToString(if i < 0 then -i else i))
  {
    if i < 0 {
      assert IntToString(i)[1..] == NatToString(-i);
    }
  }

  /** A string of whitespace has no words. */
  lemma SplitAllBlank(b: Blanks, tail: string)
    requires AllBlank(b, tail)
    ensures Split(b, tail) == []
  {
  }

  /** Leading whitespace does not change the split. */
  lemma SplitAfterBlank(b: Blanks, c: char, s: string)
    requires IsBlank(b, c)
    ensures Split(b, [c] + s) == Split(b, s)
  {
    assert ([c] + s)[1..] == s;
    assert TrimStart(b, [c] + s) == TrimStart(b, s);
  }

  /** C++ `stream >> word` reads exactly w when whitespace (or nothing) follows it, and
      leaves the stream at that whitespace. */
  lemma ReadWordOfWord(w: string, rest: string)
    requires IsWord(CLocale, w)
    requires rest == [] || IsBlank(CLocale, rest[0])
    ensures ReadWord(w + rest) == (w, rest)
  {
    TrimStartOverBlanks(CLocale, [], w + rest);
    assert [] + (w + rest) == w + rest;
    WordLengthOfWord(CLocale, w, rest);
    assert (w + rest)[..|w|] == w;
    assert (w + rest)[|w|..] == rest;
  }

  /** A word followed by whitespace (or nothing) is the first word of the split. */
  lemma SplitWordThen(b: Blanks, w: string, rest: string)
    requires IsWord(b, w)
    requires rest == [] || IsBlank(b, rest[0])
    ensures Split(b, w + rest) == [w] + Split(b, rest)
  {
    TrimStartOverBlanks(b, [], w + rest);
    assert [] + (w + rest) == w + rest;
    WordLengthOfWord(b, w, rest);
    assert (w + rest)[..|w|] == w;
    assert (w + rest)[|w|..] == rest;
  }

  /** Splitting words joined by spaces, followed by any whitespace, gives the words back:
      every message in the source is built by joining words with spaces and read back
      with a split. */
  lemma {:induction false} SplitUnwords(b: Blanks, ws: seq<string>, tail: string)
    requires forall k :: 0 <= k < |ws| ==> IsWord(b, ws[k])
    requires AllBlank(b, tail)
    ensures Split(b, Unwords(ws) + tail) == ws
    decreases |ws|
  {
    if ws == [] {
      UnwordsThen(ws, tail);
      SplitAllBlank(b, tail);
    } else if |ws| == 1 {
      UnwordsThen(ws, tail);
      SplitOneWord(b, ws[0], tail);
    } else {
      var rest := ws[1..];
      UnwordsThen(ws, tail);
      SplitWordSpace(b, ws[0], Unwords(rest) + tail);
      assert forall k :: 0 <= k < |rest| ==> rest[k] == ws[k + 1];
      SplitUnwords(b, rest, tail);
      ConsTail(ws);
    }
  }

  /** Unwords(ws) followed by tail, by the number of words. */
  lemma UnwordsThen(ws: seq<string>, tail: string)
    ensures ws == [] ==> Unwords(ws) + tail == tail
    ensures |ws| == 1 ==> Unwords(ws) + tail == ws[0] + tail
    ensures |ws| >= 2 ==> Unwords(ws) + tail == ws[0] + " " + (Unwords(ws[1..]) + tail)
  {
    if ws == [] {
      AppendEmpty(tail);
    } else if |ws| >= 2 {
      UnwordsMore(ws, tail);
    }
  }

  /** Unwords of two or more words, followed by tail. */
  lemma UnwordsMore(ws: seq<string>, tail: string)
    requires |ws| >= 2
    ensures Unwords(ws) + tail == ws[0] + " " + (Unwords(ws[1..]) + tail)
  {
    Regroup(ws[0] + " ", Unwords(ws[1..]), tail);
  }

  lemma Regroup<T>(a: seq<T>, b: seq<T>, c: seq<T>)
    ensures a + b + c == a + (b + c)
  {
  }

  lemma ConsTail<T>(s: seq<T>)
    requires s != []
    ensures [s[0]] + s[1..] == s
  {
  }

  lemma AppendEmpty<T>(s: seq<T>)
    ensures s + [] == s && [] + s == s
  {
  }

  /** Unwords([w, x]) is "w x". */
  lemma UnwordsPair(w: string, x: string)
    ensures Unwords([w, x]) == w + " " + x
  {
    assert [w, x][1..] == [x];
  }

  lemma SplitOneWord(b: Blanks, w: string, tail: string)
    requires IsWord(b, w) && AllBlank(b, tail)
    ensures Split(b, w + tail) == [w]
  {
    SplitWordThen(b, w, tail);
    SplitAllBlank(b, tail);
  }

  lemma SplitWordSpace(b: Blanks, w: string, more: string)
    requires IsWord(b, w)
    ensures Split(b, w + " " + more) == [w] + Split(b, more)
  {
    assert w + " " + more == w + (" " + more);
    SplitWordThen(b, w, " " + more);
    SplitAfterBlank(b, ' ', more);
  }

  /** Splitting the sep-join of parts that do not contain sep gives the parts back. */
  lemma {:induction false} SplitOnJoinOn(parts: seq<string>, sep: char)
    requires parts != []
    requires forall k :: 0 <= k < |parts| ==> sep !in parts[k]
    ensures SplitOn(JoinOn(parts, sep), sep) == parts
    decreases |parts|
  {
    var p := parts[0];
    if |parts| == 1 {
      assert IndexOf(p, sep) == |p|;
    } else {
      var more := JoinOn(parts[1..], sep);
      SepFront(p, sep, more);
      SplitOnJoinOn(parts[1..], sep);
      assert SplitOn(p + [sep] + more, sep) == [p] + SplitOn(more, sep);
      ConsTail(parts);
    }
  }

  /** The first sep of p + [sep] + more is the one after p. */
  lemma SepFront(p: string, sep: char, more: string)
    requires sep !in p
    ensures IndexOf(p + [sep] + more, sep) == |p|
    ensures (p + [sep] + more)[..|p|] == p && (p + [sep] + more)[|p| + 1..] == more
  {
    var s := p + [sep] + more;
    assert forall i :: 0 <= i < |p| ==> s[i] == p[i];
    assert s[|p|] == sep;
    assert sep !in s[..IndexOf(s, sep)];
  }

  /** s is not empty and neither starts nor ends with whitespace. */
  predicate Trimmed(b: Blanks, s: string)
  {
    s != [] && !IsBlank(b, s[0]) && !IsBlank(b, s[|s| - 1])
  }

  /** A printed integer holds only digits and a minus sign, so it never contains a
      separator such as ',' or ':'. */
  lemma SeparatorNotInInt(i: int, sep: char)
    requires !IsDigit(sep) && sep != '-'
    ensures sep !in IntToString(i)
  {
    var d := NatToString(if i < 0 then -i else i);
    assert sep !in d by {
      forall k | 0 <= k < |d|
        ensures d[k] != sep
      {
        assert IsDigit(d[k]);
      }
    }
  }

  /** Words joined by spaces neither start nor end with whitespace. */
  lemma {:induction false} UnwordsEnds(b: Blanks, ws: seq<string>)
    requires ws != [] && forall k :: 0 <= k < |ws| ==> IsWord(b, ws[k])
    ensures Trimmed(b, Unwords(ws))
    decreases |ws|
  {
    assert IsWord(b, ws[0]);
    if |ws| > 1 {
      UnwordsEnds(b, ws[1..]);
      assert Unwords(ws) == ws[0] + " " + Unwords(ws[1..]);
    }
  }

  /** Python's strip() of a message built by joining words with spaces and ending in
      whitespace (a newline) gives back the joined words. */
  lemma StripMessage(ws: seq<string>, tail: string)
    requires ws != [] && forall k :: 0 <= k < |ws| ==> IsWord(PyUnicode, ws[k])
    requires AllBlank(PyUnicode, tail)
    ensures Strip(Unwords(ws) + tail) == Unwords(ws)
  {
    UnwordsEnds(PyUnicode, ws);
    StripBeforeBlanks(Unwords(ws), tail);
  }

  /** f"{w} {x}\n".strip() is the two words and their space. */
  lemma StripTwoWords(w: string, x: string)
    requires IsWord(PyUnicode, w) && IsWord(PyUnicode, x)
    ensures Strip(w + " " + x + "\n") == w + " " + x
  {
    UnwordsPair(w, x);
    StripMessage([w, x], "\n");
  }

  lemma StripBeforeBlanks(u: string, tail: string)
    requires Trimmed(PyUnicode, u)
    requires AllBlank(PyUnicode, tail)
    ensures Strip(u + tail) == u
  {
    assert (u + tail)[0] == u[0];
    assert TrimStart(PyUnicode, u + tail) == u + tail;
    TrimEndOverBlanks(PyUnicode, u, tail);
  }

  /** s.strip().split() of such a message gives back its words. */
  lemma WordsOfMessage(ws: seq<string>, tail: string)
    requires forall k :: 0 <= k < |ws| ==> IsWord(PyUnicode, ws[k])
    requires AllBlank(PyUnicode, tail)
    ensures Split(PyUnicode, Strip(Unwords(ws) + tail)) == ws
  {
    if ws == [] {
      UnwordsThen(ws, tail);
      StripAllBlank(tail);
    } else {
      StripMessage(ws, tail);
      SplitUnwordsAlone(ws);
    }
  }

  /** strip() of nothing but whitespace is empty. */
  lemma StripAllBlank(tail: string)
    requires AllBlank(PyUnicode, tail)
    ensures Strip(tail) == []
  {
    TrimStartAllBlank(PyUnicode, tail);
  }

  lemma {:induction false} TrimStartAllBlank(b: Blanks, s: string)
    ensures AllBlank(b, s) ==> TrimStart(b, s) == []
  {
    if s != [] {
      TrimStartAllBlank(b, s[1..]);
    }
  }

  lemma SplitUnwordsAlone(ws: seq<string>)
    requires forall k :: 0 <= k < |ws| ==> IsWord(PyUnicode, ws[k])
    ensures Split(PyUnicode, Unwords(ws)) == ws
  {
    SplitUnwords(PyUnicode, ws, "");
    AppendEmpty(Unwords(ws));
  }

  // ---------------------------------------------------------------- Python helpers

  /** Python's s.split()[1]: None where it raises IndexError. */
  function SecondWord(s: string): (r: Option<string>)
    ensures r.Some? ==> IsWord(PyUnicode, r.value)
  {
    var ws := Split(PyUnicode, s);
    if |ws| < 2 then None else Some(ws[1])
  }

  /** Python's int(s.split()[1]): None where it raises (fewer than two words, or a second
      word int() rejects). */
  function SecondWordInt(s: string): (r: Option<int>)
    ensures r.Some? ==> SecondWord(s).Some?
  {
    match SecondWord(s)
    case None => None
    case Some(w) => PyInt(w)
  }

  /** The second word of "w x" followed by whitespace is x. */
  lemma SecondWordOf(w: string, x: string, tail: string)
    requires IsWord(PyUnicode, w) && IsWord(PyUnicode, x) && AllBlank(PyUnicode, tail)
    ensures SecondWord(w + " " + x + tail) == Some(x)
  {
    UnwordsPair(w, x);
    SplitUnwords(PyUnicode, [w, x], tail);
  }

  /** A reply "w <i>" built with f"{w} {i}" gives back i to int(reply.split()[1]). */
  lemma SecondWordIntOf(w: string, i: int, tail: string)
    requires IsWord(PyUnicode, w) && AllBlank(PyUnicode, tail)
    ensures SecondWordInt(w + " " + IntToString(i) + tail) == Some(i)
  {
    SecondWordOf(w, IntToString(i), tail);
    PyIntOfIntToString(i, "", "");
    AppendEmpty(IntToString(i));
  }

  /** "w x" starts with w and has x as its second word. */
  lemma PairReads(w: string, x: string)
    requires IsWord(PyUnicode, w) && IsWord(PyUnicode, x)
    ensures StartsWith(w + " " + x, w) && SecondWord(w + " " + x) == Some(x)
  {
    PairStartsWith(w, x);
    SecondWordOf(w, x, "");
    AppendEmpty(w + " " + x);
  }

  lemma PairStartsWith(w: string, x: string)
    ensures StartsWith(w + " " + x, w)
  {
    assert (w + " " + x)[..|w|] == w;
  }

  /** "w <i>" starts with w and has i as its second word, read as an int. */
  lemma PairIntReads(w: string, i: int)
    requires IsWord(PyUnicode, w)
    ensures StartsWith(w + " " + IntToString(i), w) && SecondWordInt(w + " " + IntToString(i)) == Some(i)
  {
    PairReads(w, IntToString(i));
    PyIntOfIntToStringAlone(i);
  }

  /** int(str(i)) == i */
  lemma PyIntOfIntToStringAlone(i: int)
    ensures PyInt(IntToString(i)) == Some(i)
  {
    PyIntOfIntToString(i, "", "");
    Unwrapped(IntToString(i));
  }

  lemma Unwrapped<T>(s: seq<T>)
    ensures [] + s + [] == s
  {
  }

  /** Python's a <= b on strings: by code points, a proper prefix first. */
  predicate StrLe(a: string, b: string)
  {
    if a == [] then true
    else if b == [] then false
    else if a[0] != b[0] then a[0] < b[0]
    else StrLe(a[1..], b[1..])
  }

  lemma {:induction false} StrLeTotal(a: string, b: string)
    ensures StrLe(a, b) || StrLe(b, a)
  {
    if a != [] && b != [] && a[0] == b[0] {
      StrLeTotal(a[1..], b[1..]);
    }
  }

  lemma {:induction false} StrLeAntisymmetric(a: string, b: string)
    requires StrLe(a, b) && StrLe(b, a)
    ensures a == b
  {
    if a != [] && b != [] {
      StrLeAntisymmetric(a[1..], b[1..]);
      assert a == [a[0]] + a[1..] && b == [b[0]] + b[1..];
    }
  }

  lemma {:induction false} StrLeTransitive(a: string, b: string, c: string)
    requires StrLe(a, b) && StrLe(b, c)
    ensures StrLe(a, c)
  {
    if a != [] && b != [] && c != [] && a[0] == b[0] && b[0] == c[0] {
      StrLeTransitive(a[1..], b[1..], c[1..]);
    }
  }
}
