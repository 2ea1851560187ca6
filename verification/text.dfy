/** The string operations the program borrows from Python: substring containment,
    `lower`, `strip`, `readline`, `"\n".join` and decimal rendering of integers. */
module Text {

  /** `sub` sits in `s` at position `i`. */
  predicate OccursAt(sub: string, s: string, i: nat)
  {
    i + |sub| <= |s| && s[i..i + |sub|] == sub
  }

  /** Python's `sub in s` on strings. The empty string occurs in every string. */
  predicate IsSubstring(sub: string, s: string)
  {
    exists i: nat | i <= |s| :: OccursAt(sub, s, i)
  }

  lemma {:induction false} EmptyIsSubstring(s: string)
    ensures IsSubstring("", s)
  {
    assert OccursAt("", s, 0);
  }

  lemma {:induction false} NothingNonEmptyInEmpty(sub: string)
    requires sub != ""
    ensures !IsSubstring(sub, "")
  {
  }

  /** ASCII case folding of one character. */
  function LowerChar(c: char): (d: char)
    ensures 'A' <= c <= 'Z' ==> 'a' <= d <= 'z' && d as int - c as int == 32
    ensures !('A' <= c <= 'Z') ==> d == c
  {
    if 'A' <= c <= 'Z' then (c as int + 32) as char else c
  }

  /** Python's `str.lower()`, restricted to the ASCII letters. */
  function Lower(s: string): (r: string)
    ensures |r| == |s|
    ensures forall i :: 0 <= i < |s| ==> r[i] == LowerChar(s[i])
  {
    seq(|s|, i requires 0 <= i < |s| => LowerChar(s[i]))
  }

  /** The characters `str.strip()` removes: the ASCII white space and the four
      ASCII separators that Python also counts as space. */
  predicate IsSpace(c: char)
  {
    c == ' ' || c == '\t' || c == '\n' || c == '\r' || '\U{000B}' <= c <= '\U{000C}'
    || '\U{001C}' <= c <= '\U{001F}'
  }

  /** No space at either end. */
  predicate Trimmed(s: string)
  {
    s == [] || (!IsSpace(s[0]) && !IsSpace(s[|s| - 1]))
  }

  function StripStart(s: string): (r: string)
    ensures |r| <= |s| && r == s[|s| - |r|..]
    ensures r == [] || !IsSpace(r[0])
    ensures forall i :: 0 <= i < |s| - |r| ==> IsSpace(s[i])
  {
    if s != [] && IsSpace(s[0]) then StripStart(s[1..]) else s
  }

  function StripEnd(s: string): (r: string)
    ensures |r| <= |s| && r == s[..|r|]
    ensures r == [] || !IsSpace(r[|r| - 1])
    ensures forall i :: |r| <= i < |s| ==> IsSpace(s[i])
  {
    if s != [] && IsSpace(s[|s| - 1]) then StripEnd(s[..|s| - 1]) else s
  }

  /** `r` sits in `s` at `i` with only spaces before it and only spaces after it. */
  predicate SpacedAt(r: string, s: string, i: nat)
  {
    OccursAt(r, s, i)
    && (forall k :: 0 <= k < i ==> IsSpace(s[k]))
    && (forall k :: i + |r| <= k < |s| ==> IsSpace(s[k]))
  }

  /** Python's `str.strip()`: the slice of `s` left once every space before it and
      every space after it is dropped, with no space at either end. */
  function Strip(s: string): (r: string)
    ensures Trimmed(r)
    ensures exists i: nat :: SpacedAt(r, s, i)
  {
    var t := StripStart(s);
    var r := StripEnd(t);
    var i := |s| - |t|;
    assert SpacedAt(r, s, i) by {
      assert s[i..i + |r|] == t[..|r|];
      forall k | i + |r| <= k < |s|
        ensures IsSpace(s[k])
      {
        assert s[k] == t[k - i];
      }
    }
    r
  }

  /** Any slice of `s` with no space at either end and only spaces around it is
      `Strip(s)`: the contract of `Strip` determines its result. */
  lemma {:induction false} StripUnique(s: string, r: string, i: nat)
    requires Trimmed(r) && SpacedAt(r, s, i)
    ensures r == Strip(s)
  {
    var r' := Strip(s);
    var i': nat :| SpacedAt(r', s, i');
    if r != [] {
      assert s[i] == r[0] && s[i + |r| - 1] == r[|r| - 1];
    }
    if r' != [] {
      assert s[i'] == r'[0] && s[i' + |r'| - 1] == r'[|r'| - 1];
    }
  }

  /** A non-empty line with no surrounding space, read back with its line break, strips to itself. */
  lemma {:induction false} StripLineBreak(t: string)
    requires Trimmed(t) && t != ""
    ensures Strip(t + "\n") == t
  {
  }

  /** The index just after the first line break of `s`, or `|s|` when there is none:
      where Python's `readline` stops. */
  function LineEnd(s: string): (k: nat)
    ensures k <= |s|
    ensures s != [] ==> 0 < k
    ensures forall i :: 0 <= i < k - 1 ==> s[i] != '\n'
    ensures 0 < k ==> s[k - 1] == '\n' || k == |s|
    ensures k == |s| && '\n' in s ==> s[|s| - 1] == '\n'
  {
    if s == [] then 0
    else if s[0] == '\n' then 1
    else
      var k := LineEnd(s[1..]) + 1;
      assert forall i :: 1 <= i < k - 1 ==> s[i] == s[1..][i - 1];
      k
  }

  /** What `f.readline()` returns on a file holding `s`. */
  function FirstLine(s: string): (r: string)
    ensures r <= s
  {
    s[..LineEnd(s)]
  }

  /** What `f.read()` returns after one `f.readline()` on a file holding `s`. */
  function DropFirstLine(s: string): (r: string)
    ensures FirstLine(s) + r == s
  {
    assert s[..LineEnd(s)] + s[LineEnd(s)..] == s;
    s[LineEnd(s)..]
  }

  /** A line with no break in it, followed by a break, is read as one line. */
  lemma {:induction false} LineEndAfter(t: string, u: string)
    requires '\n' !in t
    ensures LineEnd(t + "\n" + u) == |t| + 1
  {
    if t != [] {
      assert (t + "\n" + u)[1..] == t[1..] + "\n" + u;
      LineEndAfter(t[1..], u);
    }
  }

  lemma {:induction false} SplitAfterLine(t: string, u: string)
    requires '\n' !in t
    ensures FirstLine(t + "\n" + u) == t + "\n"
    ensures DropFirstLine(t + "\n" + u) == u
  {
    LineEndAfter(t, u);
    var s := t + "\n" + u;
    assert s[..|t| + 1] == t + "\n";
    assert s[|t| + 1..] == u;
  }

  /** Python's `sep.join(parts)`. */
  function Join(parts: seq<string>, sep: string): string
  {
    if parts == [] then ""
    else if |parts| == 1 then parts[0]
    else parts[0] + sep + Join(parts[1..], sep)
  }

  function DigitChar(d: nat): (c: char)
    requires d < 10
    ensures '0' <= c <= '9'
  {
    ['0', '1', '2', '3', '4', '5', '6', '7', '8', '9'][d]
  }

  function DigitValue(c: char): nat
  {
    if '0' <= c <= '9' then c as int - '0' as int else 0
  }

  predicate AllDigits(s: string)
  {
    forall i :: 0 <= i < |s| ==> '0' <= s[i] <= '9'
  }

  /** Python's `str(n)` on a non-negative integer. */
  function NatToString(n: nat): (s: string)
    ensures 1 <= |s| && AllDigits(s)
  {
    if n < 10 then [DigitChar(n)] else NatToString(n / 10) + [DigitChar(n % 10)]
  }

  /** The number a string of decimal digits denotes. */
  function DecimalValue(s: string): nat
  {
    if s == [] then 0 else DecimalValue(s[..|s| - 1]) * 10 + DigitValue(s[|s| - 1])
  }

  lemma {:induction false} DecimalRoundTrip(n: nat)
    ensures DecimalValue(NatToString(n)) == n
  {
    if n >= 10 {
      var s := NatToString(n);
      assert s[..|s| - 1] == NatToString(n / 10);
      DecimalRoundTrip(n / 10);
    }
  }

  /** Python's `f"{n:02d}"` on a non-negative integer: zero-padded to two digits,
      wider numbers printed in full. */
  function Pad2(n: nat): (s: string)
    ensures 2 <= |s| && AllDigits(s)
  {
    if n < 10 then "0" + NatToString(n) else NatToString(n)
  }

  /** The padded rendering still denotes `n`. */
  lemma {:induction false} Pad2Denotes(n: nat)
    ensures DecimalValue(Pad2(n)) == n
  {
    DecimalRoundTrip(n);
    if n < 10 {
      assert Pad2(n)[..1] == "0";
    }
  }

  /** The padded rendering denotes `n`, so distinct indices render differently. */
  lemma {:induction false} Pad2Value(n: nat)
    ensures DecimalValue(Pad2(n)) == n
    ensures forall m: nat :: Pad2(m) == Pad2(n) ==> m == n
  {
    Pad2Denotes(n);
    forall m: nat | Pad2(m) == Pad2(n) ensures m == n {
      Pad2Denotes(m);
    }
  }
}
