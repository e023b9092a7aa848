/**
 * Character classes and string operations of JavaScript that the assistant relies on:
 * the `\s`, `\d` and `.` classes of its regular expressions, `toLowerCase`, `trim`,
 * `includes`, `parseInt` on a digit string and the decimal rendering of a number
 * inside a template literal.
 */
module Text {

  /** JavaScript's `\s`: the characters `String.prototype.trim` also removes. */
  predicate IsSpace(c: char) {
    c == ' ' || c == '\t' || c == '\n' || c == '\U{0B}' || c == '\U{0C}' || c == '\r'
    || c == '\U{A0}' || c == '\U{1680}' || ('\U{2000}' <= c <= '\U{200A}')
    || c == '\U{2028}' || c == '\U{2029}' || c == '\U{202F}' || c == '\U{205F}'
    || c == '\U{3000}' || c == '\U{FEFF}'
  }

  /** The line terminators, the only characters the regular-expression `.` does not match. */
  predicate IsLineTerminator(c: char) {
    c == '\n' || c == '\r' || c == '\U{2028}' || c == '\U{2029}'
  }

  /** JavaScript's `\d`: ASCII digits only. */
  predicate IsDigit(c: char) {
    '0' <= c <= '9'
  }

  /** The character classes a run of repetitions can be taken over. */
  datatype Class = Space | Digit | Dot

  predicate InClass(c: char, k: Class) {
    match k
    case Space => IsSpace(c)
    case Digit => IsDigit(c)
    case Dot => !IsLineTerminator(c)
  }

  /** Length of the longest run of characters of class `k` starting at position `i`. */
  function Run(t: string, i: nat, k: Class): (n: nat)
    ensures n == 0 || i + n <= |t|
    decreases |t| - i
  {
    if i < |t| && InClass(t[i], k) then 1 + Run(t, i + 1, k) else 0
  }

  /** The run is made of characters of its class and is followed by one outside it, or by the end. */
  lemma {:induction false} RunIsMaximal(t: string, i: nat, k: Class)
    ensures forall j :: i <= j < i + Run(t, i, k) ==> InClass(t[j], k)
    ensures i + Run(t, i, k) < |t| ==> !InClass(t[i + Run(t, i, k)], k)
    ensures i <= |t| ==> i + Run(t, i, k) <= |t|
    decreases |t| - i
  {
    if i < |t| && InClass(t[i], k) {
      RunIsMaximal(t, i + 1, k);
    }
  }

  /** `w` occurs in `t` at position `i`, compared character by character. */
  predicate StartsAt(t: string, i: nat, w: string)
    decreases |w|
  {
    i <= |t| && (w == [] || (i < |t| && t[i] == w[0] && StartsAt(t, i + 1, w[1..])))
  }

  /** The occurrence is the slice of `t` of the length of `w` at `i`. */
  lemma {:induction false} StartsAtIff(t: string, i: nat, w: string)
    ensures StartsAt(t, i, w) <==> i + |w| <= |t| && t[i..i + |w|] == w
    decreases |w|
  {
    if w != [] && i < |t| {
      StartsAtIff(t, i + 1, w[1..]);
      if i + |w| <= |t| {
        var slice := t[i..i + |w|];
        assert t[i + 1..i + 1 + |w[1..]|] == t[i + 1..i + |w|];
        assert slice == [t[i]] + t[i + 1..i + |w|];
        assert w == [w[0]] + w[1..];
        if slice == w {
          assert slice[0] == w[0] && slice[1..] == w[1..];
        }
      }
    }
  }

  /** Dropping the first character of `t` moves every occurrence one position left. */
  lemma {:induction false} StartsAtShift(t: string, i: nat, w: string)
    requires t != []
    ensures StartsAt(t[1..], i, w) <==> StartsAt(t, i + 1, w)
    decreases |w|
  {
    if w != [] {
      StartsAtShift(t, i + 1, w[1..]);
    }
  }

  function LowerChar(c: char): char {
    if 'A' <= c <= 'Z' then (c as int + 32) as char else c
  }

  /** `toLowerCase`, on the ASCII letters. */
  function Lower(s: string): (r: string)
    ensures |r| == |s|
    ensures forall i :: 0 <= i < |s| ==> r[i] == LowerChar(s[i])
  {
    seq(|s|, i requires 0 <= i < |s| => LowerChar(s[i]))
  }

  lemma {:induction false} LowerIdempotent(s: string)
    ensures Lower(Lower(s)) == Lower(s)
  {
    var l := Lower(s);
    assert forall i :: 0 <= i < |l| ==> Lower(l)[i] == l[i];
  }

  /** A slice of a lower-cased text, even one cut further, is its own lower-casing. */
  lemma LowerSlice(s: string, i: nat, j: nat)
    requires Lower(s) == s && i <= j <= |s|
    ensures Lower(s[i..j]) == s[i..j]
  {
    assert forall k :: 0 <= k < j - i ==> Lower(s[i..j])[k] == LowerChar(s[i + k]) == Lower(s)[i + k];
  }

  function TrimStart(s: string): (r: string)
    ensures |r| <= |s| && r == s[|s| - |r|..]
    ensures r == [] || !IsSpace(r[0])
    ensures forall i :: 0 <= i < |s| - |r| ==> IsSpace(s[i])
  {
    if s != [] && IsSpace(s[0]) then
      var r := TrimStart(s[1..]);
      assert s[1..][|s| - 1 - |r|..] == s[|s| - |r|..];
      assert forall i :: 1 <= i < |s| - |r| ==> s[i] == s[1..][i - 1];
      r
    else s
  }

  function TrimEnd(s: string): (r: string)
    ensures |r| <= |s| && r == s[..|r|]
    ensures r == [] || !IsSpace(r[|r| - 1])
    ensures forall i :: |r| <= i < |s| ==> IsSpace(s[i])
  {
    if s != [] && IsSpace(s[|s| - 1]) then TrimEnd(s[..|s| - 1]) else s
  }

  /**
   * `trim`: the slice of `s` left after removing the white space at both ends;
   * what remains begins and ends with a character that is not white space.
   */
  function Trim(s: string): (r: string)
    ensures |s| - |TrimStart(s)| + |r| <= |s|
    ensures r == s[|s| - |TrimStart(s)|..|s| - |TrimStart(s)| + |r|]
    ensures forall i :: 0 <= i < |s| - |TrimStart(s)| ==> IsSpace(s[i])
    ensures forall i :: |s| - |TrimStart(s)| + |r| <= i < |s| ==> IsSpace(s[i])
    ensures r == [] || (!IsSpace(r[0]) && !IsSpace(r[|r| - 1]))
  {
    var l := TrimStart(s);
    var r := TrimEnd(l);
    TrimEndOfSuffix(s, |s| - |l|);
    r
  }

  /** Trimming the end of the suffix of `s` from `o` gives a slice of `s` whose cut-off tail is white space. */
  lemma TrimEndOfSuffix(s: string, o: nat)
    requires o <= |s|
    ensures o + |TrimEnd(s[o..])| <= |s|
    ensures TrimEnd(s[o..]) == s[o..o + |TrimEnd(s[o..])|]
    ensures forall i :: o + |TrimEnd(s[o..])| <= i < |s| ==> IsSpace(s[i])
  {
    var l := s[o..];
    var r := TrimEnd(l);
    assert r == l[..|r|];
    assert l[..|r|] == s[o..o + |r|];
    forall i | o + |r| <= i < |s|
      ensures IsSpace(s[i])
    {
      assert s[i] == l[i - o];
    }
  }

  /** A string with no white space at its ends is its own trim. */
  lemma {:induction false} TrimOfTrimmed(s: string)
    requires s == [] || (!IsSpace(s[0]) && !IsSpace(s[|s| - 1]))
    ensures Trim(s) == s
  {
  }

  /** `s.includes(sub)`, scanning left to right. */
  predicate Includes(s: string, sub: string)
    decreases |s|
  {
    StartsAt(s, 0, sub) || (s != [] && Includes(s[1..], sub))
  }

  /** `includes` holds exactly when `sub` occurs at some position of `s`. */
  lemma {:induction false} IncludesIff(s: string, sub: string)
    ensures Includes(s, sub) <==> exists i: nat :: StartsAt(s, i, sub)
    decreases |s|
  {
    if s != [] {
      IncludesIff(s[1..], sub);
      if Includes(s, sub) {
        if StartsAt(s, 0, sub) {
          var zero: nat := 0;
          assert StartsAt(s, zero, sub);
        } else {
          var i: nat :| StartsAt(s[1..], i, sub);
          StartsAtShift(s, i, sub);
          assert StartsAt(s, i + 1, sub);
        }
      }
      if i: nat :| StartsAt(s, i, sub) {
        if i == 0 || sub == [] {
          assert StartsAt(s, 0, sub);
        } else {
          StartsAtShift(s, i - 1, sub);
          assert Includes(s[1..], sub);
        }
        assert Includes(s, sub);
      }
      assert Includes(s, sub) ==> exists i: nat :: StartsAt(s, i, sub);
      assert (exists i: nat :: StartsAt(s, i, sub)) ==> Includes(s, sub);
    } else {
      if i: nat :| StartsAt(s, i, sub) {
        assert i == 0;
        assert Includes(s, sub);
      }
      if Includes(s, sub) {
        var zero: nat := 0;
        assert StartsAt(s, zero, sub);
      }
    }
  }

  /** Every string includes the empty string: an empty query matches everything. */
  lemma IncludesEmpty(s: string)
    ensures Includes(s, [])
  {
  }

  function DigitValue(c: char): nat
    requires IsDigit(c)
  {
    c as int - '0' as int
  }

  /** `parseInt` on a string of decimal digits. */
  function DecimalValue(s: string): nat
    requires forall i :: 0 <= i < |s| ==> IsDigit(s[i])
  {
    if s == [] then 0 else 10 * DecimalValue(s[..|s| - 1]) + DigitValue(s[|s| - 1])
  }

  function DigitChar(d: nat): (c: char)
    requires d < 10
    ensures IsDigit(c) && DigitValue(c) == d
  {
    ('0' as int + d) as char
  }

  /** The decimal rendering of a number in a template literal such as `${quantity}`. */
  function NatToString(n: nat): (s: string)
    ensures s != [] && forall i :: 0 <= i < |s| ==> IsDigit(s[i])
    ensures (s[0] == '0') == (n == 0)
    ensures n < 10 ==> |s| == 1
  {
    if n < 10 then [DigitChar(n)] else NatToString(n / 10) + [DigitChar(n % 10)]
  }

  /** Reading back the rendering of a number gives the number. */
  lemma {:induction false} DecimalRoundTrip(n: nat)
    ensures DecimalValue(NatToString(n)) == n
  {
    var s := NatToString(n);
    if n < 10 {
      assert s[..|s| - 1] == [];
    } else {
      DecimalRoundTrip(n / 10);
      assert s[..|s| - 1] == NatToString(n / 10);
    }
  }
}
