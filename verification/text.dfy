/** String helpers the tracker relies on from the JavaScript runtime:
    decimal rendering of a number in a template literal, `Number(token) || 0`
    on a duration token, `String.prototype.split` on a character class and
    `Array.prototype.join` with a one-character separator. */
module Text {

  // ---------------------------------------------------------------------------
  // Decimal digits
  // ---------------------------------------------------------------------------

  predicate IsDigit(c: char) {
    '0' <= c <= '9'
  }

  predicate AllDigits(s: string) {
    forall i :: 0 <= i < |s| ==> IsDigit(s[i])
  }

  function DigitValue(c: char): (d: nat)
    requires IsDigit(c)
    ensures d < 10
  {
    (c as int) - ('0' as int)
  }

  function DigitChar(d: nat): (c: char)
    requires d < 10
    ensures IsDigit(c) && DigitValue(c) == d
  {
    (('0' as int) + d) as char
  }

  /** The value of a string of decimal digits, most significant digit first;
      the empty string has value 0. */
  function DigitsValue(s: string): nat
    requires AllDigits(s)
  {
    if |s| == 0 then 0 else DigitsValue(s[..|s| - 1]) * 10 + DigitValue(s[|s| - 1])
  }

  /** A digit string in the form JavaScript prints a non-negative integer:
      non-empty and without leading zeros. */
  predicate Canonical(s: string) {
    0 < |s| && AllDigits(s) && (s[0] == '0' ==> |s| == 1)
  }

  /** How `${n}` renders a non-negative integer. */
  function NatToString(n: nat): (s: string)
    ensures Canonical(s)
    decreases n
  {
    if n < 10 then [DigitChar(n)] else NatToString(n / 10) + [DigitChar(n % 10)]
  }

  /** Reading back a rendered number gives the number. */
  lemma {:induction false} DigitsValueOfNatToString(n: nat)
    ensures DigitsValue(NatToString(n)) == n
    decreases n
  {
    if n >= 10 {
      var s := NatToString(n);
      assert s[..|s| - 1] == NatToString(n / 10);
      DigitsValueOfNatToString(n / 10);
    }
  }

  lemma {:induction false} LeadingDigitBoundsValue(s: string)
    requires 0 < |s| && AllDigits(s)
    ensures DigitsValue(s) >= DigitValue(s[0])
    decreases |s|
  {
    if |s| > 1 {
      LeadingDigitBoundsValue(s[..|s| - 1]);
    }
  }

  /** Rendering the value of a canonical digit string gives the string back,
      so canonical digit strings and naturals are in one-to-one correspondence. */
  lemma {:induction false} NatToStringOfDigitsValue(s: string)
    requires Canonical(s)
    ensures NatToString(DigitsValue(s)) == s
    decreases |s|
  {
    if |s| > 1 {
      var p := s[..|s| - 1];
      var d := DigitValue(s[|s| - 1]);
      assert Canonical(p) by {
        assert p[0] == s[0];
      }
      LeadingDigitBoundsValue(p);
      NatToStringOfDigitsValue(p);
      var v := DigitsValue(s);
      assert v == DigitsValue(p) * 10 + d && DigitsValue(p) >= 1;
      assert v / 10 == DigitsValue(p) && v % 10 == d;
      assert DigitChar(d) == s[|s| - 1];
      assert s == p + [s[|s| - 1]];
    }
  }

  // ---------------------------------------------------------------------------
  // Whitespace and `Number(token) || 0`
  // ---------------------------------------------------------------------------

  /** The white space and line terminators `Number` strips from both ends of
      its argument (section 7.1.4.1.1 of ECMA-262, StringToNumber). */
  predicate IsSpace(c: char) {
    || c == ' ' || c == '\t' || c == '\n' || c == '\r'
    || c == '\U{000B}' || c == '\U{000C}' || c == '\U{00A0}' || c == '\U{1680}'
    || ('\U{2000}' <= c <= '\U{200A}')
    || c == '\U{2028}' || c == '\U{2029}' || c == '\U{202F}' || c == '\U{205F}'
    || c == '\U{3000}' || c == '\U{FEFF}'
  }

  predicate AllSpace(s: string) {
    forall i :: 0 <= i < |s| ==> IsSpace(s[i])
  }

  /** `s` with its leading white space removed. */
  function TrimStart(s: string): (r: string)
    ensures |r| <= |s| && r == s[|s| - |r|..]
    ensures AllSpace(s[..|s| - |r|])
    ensures 0 < |r| ==> !IsSpace(r[0])
  {
    if 0 < |s| && IsSpace(s[0]) then TrimStart(s[1..]) else s
  }

  /** `s` with its trailing white space removed. */
  function TrimEnd(s: string): (r: string)
    ensures |r| <= |s| && r == s[..|r|]
    ensures AllSpace(s[|r|..])
    ensures 0 < |r| ==> !IsSpace(r[|r| - 1])
  {
    if 0 < |s| && IsSpace(s[|s| - 1]) then TrimEnd(s[..|s| - 1]) else s
  }

  function Trim(s: string): string {
    TrimEnd(TrimStart(s))
  }

  /** `Number(token) || 0` on a token that is either blank, an unsigned decimal
      integer surrounded by white space, or anything else: blank reads as 0
      (`Number("")` is 0), digits read as their value, and any other token
      reads as `NaN`, which `|| 0` turns into 0. */
  function NumberOrZero(token: string): (n: nat)
    ensures !AllDigits(Trim(token)) ==> n == 0
    ensures AllSpace(token) ==> n == 0
  {
    var t := Trim(token);
    assert AllSpace(token) ==> TrimStart(token) == [];
    if AllDigits(t) then DigitsValue(t) else 0
  }

  lemma DigitIsNotSpace(c: char)
    requires IsDigit(c)
    ensures !IsSpace(c)
  {
  }

  lemma {:induction false} TrimStartSkipsSpace(pad: string, s: string)
    requires AllSpace(pad)
    requires 0 < |s| && !IsSpace(s[0])
    ensures TrimStart(pad + s) == s
    decreases |pad|
  {
    if |pad| > 0 {
      assert (pad + s)[1..] == pad[1..] + s;
      TrimStartSkipsSpace(pad[1..], s);
    } else {
      assert pad + s == s;
    }
  }

  /** A rendered number, after any amount of leading white space, reads back
      as that number. */
  lemma NumberOrZeroReadsRendered(pad: string, n: nat)
    requires AllSpace(pad)
    ensures NumberOrZero(pad + NatToString(n)) == n
  {
    var s := NatToString(n);
    DigitIsNotSpace(s[0]);
    DigitIsNotSpace(s[|s| - 1]);
    TrimStartSkipsSpace(pad, s);
    assert Trim(pad + s) == s;
    DigitsValueOfNatToString(n);
  }

  // ---------------------------------------------------------------------------
  // Split and join
  // ---------------------------------------------------------------------------

  predicate NoneIn(s: string, seps: set<char>) {
    forall i :: 0 <= i < |s| ==> s[i] !in seps
  }

  /** The pieces of `s` between occurrences of any character of `seps`, as
      `s.split(/[...]/)` returns them: one more piece than there are
      separators, empty pieces kept, and `[""]` for the empty string. */
  function Split(s: string, seps: set<char>): (parts: seq<string>)
    ensures 0 < |parts|
    ensures forall i :: 0 <= i < |parts| ==> NoneIn(parts[i], seps)
    ensures NoneIn(s, seps) ==> parts == [s]
  {
    if |s| == 0 then [""]
    else
      var rest := Split(s[1..], seps);
      assert s == [s[0]] + s[1..];
      if s[0] in seps then [""] + rest
      else [[s[0]] + rest[0]] + rest[1..]
  }

  /** Splitting at the first separator: the text before it is the first piece
      and the rest splits on its own. */
  lemma {:induction false} SplitAtSeparator(a: string, c: char, b: string, seps: set<char>)
    requires NoneIn(a, seps) && c in seps
    ensures Split(a + [c] + b, seps) == [a] + Split(b, seps)
    decreases |a|
  {
    var s := a + [c] + b;
    if |a| == 0 {
      assert s[0] == c && s[1..] == b;
    } else {
      assert s[0] == a[0];
      assert s[1..] == a[1..] + [c] + b;
      SplitAtSeparator(a[1..], c, b, seps);
      assert [a[0]] + a[1..] == a;
    }
  }

  /** `parts.join(sep)`. */
  function Join(parts: seq<string>, sep: char): string
    decreases |parts|
  {
    if |parts| == 0 then ""
    else if |parts| == 1 then parts[0]
    else parts[0] + [sep] + Join(parts[1..], sep)
  }

  /** A join holds its separator exactly when there are at least two pieces
      or some piece holds it already. */
  lemma {:induction false} JoinSeparator(parts: seq<string>, sep: char)
    ensures sep in Join(parts, sep) <==> |parts| > 1 || exists i :: 0 <= i < |parts| && sep in parts[i]
    decreases |parts|
  {
    if |parts| > 1 {
      var s := Join(parts, sep);
      assert s[|parts[0]|] == sep;
    }
  }

  /** Joining pieces that do not contain the separator and splitting the
      result on that separator gives the pieces back. */
  lemma {:induction false} SplitJoin(parts: seq<string>, sep: char)
    requires 0 < |parts|
    requires forall i :: 0 <= i < |parts| ==> NoneIn(parts[i], {sep})
    ensures Split(Join(parts, sep), {sep}) == parts
    decreases |parts|
  {
    if |parts| > 1 {
      SplitAtSeparator(parts[0], sep, Join(parts[1..], sep), {sep});
      SplitJoin(parts[1..], sep);
      assert [parts[0]] + parts[1..] == parts;
    }
  }
}
