/** The string built-ins the plugin relies on, restricted to ASCII:
    `toLowerCase`, `trim`, `split(",")` and `includes`, plus the decimal
    rendering that a template literal applies to a number. */
module Text {

  // ---------------------------------------------------------------------
  // toLowerCase

  predicate IsUpper(c: char) {
    'A' <= c <= 'Z'
  }

  function LowerChar(c: char): char {
    if IsUpper(c) then (c as int + 32) as char else c
  }

  /** ASCII `String.prototype.toLowerCase`: same length, every capital
      letter replaced by its small letter, every other character kept. */
  function ToLower(s: string): (r: string)
    ensures |r| == |s|
    ensures forall i :: 0 <= i < |s| ==> !IsUpper(r[i])
    ensures forall i :: 0 <= i < |s| ==> if IsUpper(s[i]) then r[i] as int == s[i] as int + 32 else r[i] == s[i]
  {
    seq(|s|, i requires 0 <= i < |s| => LowerChar(s[i]))
  }

  /** `ToLower(s)` is `t` when `t` is `s` lowered character by character. */
  lemma ToLowerIs(s: string, t: string)
    requires |s| == |t| && forall i :: 0 <= i < |s| ==> LowerChar(s[i]) == t[i]
    ensures ToLower(s) == t
  {
  }

  // ---------------------------------------------------------------------
  // trim

  /** The ASCII white space that `String.prototype.trim` removes: space,
      tab, line feed, vertical tab, form feed and carriage return. */
  predicate IsSpace(c: char) {
    c == ' ' || 9 <= c as int <= 13
  }

  function TrimStart(s: string): (r: string)
    ensures |r| <= |s| && r == s[|s| - |r|..]
    ensures forall k :: 0 <= k < |s| - |r| ==> IsSpace(s[k])
    ensures r != [] ==> !IsSpace(r[0])
  {
    if s != [] && IsSpace(s[0]) then TrimStart(s[1..]) else s
  }

  function TrimEnd(s: string): (r: string)
    ensures |r| <= |s| && r == s[..|r|]
    ensures forall k :: |r| <= k < |s| ==> IsSpace(s[k])
    ensures r != [] ==> !IsSpace(r[|r| - 1])
  {
    if s != [] && IsSpace(s[|s| - 1]) then TrimEnd(s[..|s| - 1]) else s
  }

  /** `r` is `s` with `i` characters of white space cut from its front
      and the rest of what follows `r` white space as well. */
  predicate StripsTo(s: string, i: int, r: string) {
    0 <= i <= |s| - |r| && r == s[i..i + |r|]
    && (forall k :: 0 <= k < i ==> IsSpace(s[k]))
    && (forall k :: i + |r| <= k < |s| ==> IsSpace(s[k]))
  }

  /** ASCII `String.prototype.trim`: the result is the slice of `s` left
      once all leading and trailing white space is removed. */
  function Trim(s: string): (r: string)
    ensures exists i :: StripsTo(s, i, r)
    ensures r != [] ==> !IsSpace(r[0]) && !IsSpace(r[|r| - 1])
  {
    var t := TrimStart(s);
    var r := TrimEnd(t);
    StripsInTwo(s, t, r);
    r
  }

  /** Cutting white space from the front of `s` to get `t`, then from the
      back of `t` to get `r`, strips `s` to `r`. */
  lemma StripsInTwo(s: string, t: string, r: string)
    requires |t| <= |s| && t == s[|s| - |t|..] && forall k :: 0 <= k < |s| - |t| ==> IsSpace(s[k])
    requires |r| <= |t| && r == t[..|r|] && forall k :: |r| <= k < |t| ==> IsSpace(t[k])
    ensures StripsTo(s, |s| - |t|, r)
  {
    var i := |s| - |t|;
    assert r == s[i..i + |r|];
    forall k | i + |r| <= k < |s| ensures IsSpace(s[k]) {
      assert s[k] == t[k - i];
    }
  }

  /** Trimming adds no character: one absent from `s` is absent from its
      trim. */
  lemma TrimKeepsOut(s: string, ch: char)
    requires ch !in s
    ensures ch !in Trim(s)
  {
    var i :| StripsTo(s, i, Trim(s));
  }

  lemma {:induction false} TrimIdempotent(s: string)
    ensures Trim(Trim(s)) == Trim(s)
  {
    var r := Trim(s);
    assert TrimStart(r) == r;
    assert TrimEnd(r) == r;
  }

  /** Trimming leaves alone a string with no white space at either end. */
  lemma TrimOfTrimmed(s: string)
    requires s != [] ==> !IsSpace(s[0]) && !IsSpace(s[|s| - 1])
    ensures Trim(s) == s
  {
  }

  /** Leading white space does not change the trimmed result. */
  lemma TrimLeadingSpace(c: char, s: string)
    requires IsSpace(c)
    ensures Trim([c] + s) == Trim(s)
  {
    assert ([c] + s)[1..] == s;
  }

  lemma TrimDropSpace(s: string)
    requires s != [] && IsSpace(s[0])
    ensures Trim(s) == Trim(s[1..])
  {
    TrimLeadingSpace(s[0], s[1..]);
    assert [s[0]] + s[1..] == s;
  }

  /** `s` without its first character is `t`, shown character by character. */
  lemma TailIs(s: string, t: string)
    requires |s| == |t| + 1 && forall i :: 0 <= i < |t| ==> s[i + 1] == t[i]
    ensures s[1..] == t
  {
  }

  /** A string is trimmed to nothing exactly when it is all white space. */
  lemma {:induction false} TrimEmptyIffBlank(s: string)
    ensures Trim(s) == [] <==> forall k :: 0 <= k < |s| ==> IsSpace(s[k])
  {
    if forall k :: 0 <= k < |s| ==> IsSpace(s[k]) {
      BlankTrimsStart(s);
    }
  }

  lemma {:induction false} BlankTrimsStart(s: string)
    requires forall k :: 0 <= k < |s| ==> IsSpace(s[k])
    ensures TrimStart(s) == []
    decreases |s|
  {
    if s != [] {
      BlankTrimsStart(s[1..]);
    }
  }

  // ---------------------------------------------------------------------
  // split and its inverse

  /** The inverse of `split`: the pieces glued back with `sep`. */
  function Join(parts: seq<string>, sep: char): string {
    if parts == [] then []
    else if |parts| == 1 then parts[0]
    else parts[0] + [sep] + Join(parts[1..], sep)
  }

  /** The pieces of `piece + s` split at `sep`, where `piece` is the part
      of the current piece already scanned. */
  function SplitFrom(s: string, sep: char, piece: string): seq<string> {
    if s == [] then [piece]
    else if s[0] == sep then [piece] + SplitFrom(s[1..], sep, [])
    else SplitFrom(s[1..], sep, piece + [s[0]])
  }

  /** `String.prototype.split` on a one-character separator: always at
      least one piece (`"".split(",")` is `[""]`), empty pieces kept, no
      piece holding the separator, and the pieces joined with it giving
      `s` back. */
  function Split(s: string, sep: char): (r: seq<string>)
    ensures |r| >= 1
    ensures forall i :: 0 <= i < |r| ==> sep !in r[i]
    ensures Join(r, sep) == s
  {
    JoinSplitFrom(s, sep, []);
    SplitFromPieces(s, sep, []);
    SplitFrom(s, sep, [])
  }

  lemma {:induction false} JoinSplitFrom(s: string, sep: char, piece: string)
    ensures |SplitFrom(s, sep, piece)| >= 1
    ensures Join(SplitFrom(s, sep, piece), sep) == piece + s
  {
    if s != [] {
      if s[0] == sep {
        JoinSplitFrom(s[1..], sep, []);
        var rest := SplitFrom(s[1..], sep, []);
        assert SplitFrom(s, sep, piece) == [piece] + rest;
        assert ([piece] + rest)[1..] == rest;
        assert piece + s == piece + [sep] + s[1..];
      } else {
        JoinSplitFrom(s[1..], sep, piece + [s[0]]);
        assert piece + s == (piece + [s[0]]) + s[1..];
      }
    }
  }

  lemma {:induction false} SplitFromPieces(s: string, sep: char, piece: string)
    requires sep !in piece
    ensures forall i :: 0 <= i < |SplitFrom(s, sep, piece)| ==> sep !in SplitFrom(s, sep, piece)[i]
  {
    if s != [] {
      if s[0] == sep {
        SplitFromPieces(s[1..], sep, []);
        var rest := SplitFrom(s[1..], sep, []);
        assert SplitFrom(s, sep, piece) == [piece] + rest;
      } else {
        SplitFromPieces(s[1..], sep, piece + [s[0]]);
      }
    }
  }

  lemma {:induction false} SplitFromNoSeparator(s: string, sep: char, piece: string)
    requires sep !in s
    ensures SplitFrom(s, sep, piece) == [piece + s]
  {
    if s == [] {
      assert piece + s == piece;
    } else {
      assert s[0] in s;
      assert forall k :: 0 <= k < |s[1..]| ==> s[1..][k] == s[k + 1];
      SplitFromNoSeparator(s[1..], sep, piece + [s[0]]);
      assert (piece + [s[0]]) + s[1..] == piece + s;
    }
  }

  lemma {:induction false} SplitFromAfterPiece(x: string, sep: char, y: string, piece: string)
    requires sep !in x
    ensures SplitFrom(x + [sep] + y, sep, piece) == [piece + x] + SplitFrom(y, sep, [])
  {
    var s := x + [sep] + y;
    if x == [] {
      assert s[1..] == y;
      assert piece + x == piece;
    } else {
      assert s[1..] == x[1..] + [sep] + y;
      SplitFromAfterPiece(x[1..], sep, y, piece + [x[0]]);
      assert (piece + [x[0]]) + x[1..] == piece + x;
    }
  }

  lemma {:induction false} SplitJoinFrom(parts: seq<string>, sep: char)
    requires |parts| >= 1
    requires forall i :: 0 <= i < |parts| ==> sep !in parts[i]
    ensures SplitFrom(Join(parts, sep), sep, []) == parts
  {
    if |parts| == 1 {
      SplitFromNoSeparator(parts[0], sep, []);
      assert [] + parts[0] == parts[0];
    } else {
      SplitJoinFrom(parts[1..], sep);
      SplitFromAfterPiece(parts[0], sep, Join(parts[1..], sep), []);
      assert [] + parts[0] == parts[0];
      assert [parts[0]] + parts[1..] == parts;
    }
  }

  /** Splitting the join of pieces free of the separator gives the pieces
      back: together with `Split`'s own contract, `Split` and `Join` are
      inverse on such pieces. */
  lemma SplitJoin(parts: seq<string>, sep: char)
    requires |parts| >= 1
    requires forall i :: 0 <= i < |parts| ==> sep !in parts[i]
    ensures Split(Join(parts, sep), sep) == parts
  {
    SplitJoinFrom(parts, sep);
  }

  /** A string `x + v + y` determines the part `v` between a fixed prefix
      and suffix. */
  lemma FramedInjective(x: string, v: string, w: string, y: string)
    requires x + v + y == x + w + y
    ensures v == w
  {
    assert |v| == |w|;
    assert v == (x + v + y)[|x|..|x| + |v|];
    assert w == (x + w + y)[|x|..|x| + |w|];
  }

  // ---------------------------------------------------------------------
  // includes

  /** `p` occurs in `s` starting at offset `i`. */
  predicate OccursAt(s: string, p: string, i: int) {
    0 <= i <= |s| - |p| && s[i..i + |p|] == p
  }

  /** `String.prototype.includes`: `p` occurs in `s` at some offset. */
  function Contains(s: string, p: string): (r: bool)
    ensures r <==> exists i :: OccursAt(s, p, i)
    decreases |s|
  {
    if |p| > |s| then false
    else if s[..|p|] == p then assert OccursAt(s, p, 0); true
    else
      var r := s != [] && Contains(s[1..], p);
      assert r ==> exists i :: OccursAt(s, p, i) by {
        if r {
          var j :| OccursAt(s[1..], p, j);
          assert s[1..][j..j + |p|] == s[j + 1..j + 1 + |p|];
          assert OccursAt(s, p, j + 1);
        }
      }
      assert (exists i :: OccursAt(s, p, i)) ==> r by {
        if exists i :: OccursAt(s, p, i) {
          var j :| OccursAt(s, p, j);
          assert j != 0;
          assert s[1..][j - 1..j - 1 + |p|] == s[j..j + |p|];
          assert OccursAt(s[1..], p, j - 1);
        }
      }
      r
  }

  // ---------------------------------------------------------------------
  // decimal rendering of numbers in template literals

  predicate IsDigit(c: char) {
    '0' <= c <= '9'
  }

  function Digit(d: nat): (c: char)
    requires d < 10
    ensures IsDigit(c) && c as int - '0' as int == d
  {
    ('0' as int + d) as char
  }

  /** The number a string of decimal digits denotes. */
  function DecimalValue(s: string): nat
    requires forall i :: 0 <= i < |s| ==> IsDigit(s[i])
  {
    if s == [] then 0
    else
      assert IsDigit(s[|s| - 1]);
      DecimalValue(s[..|s| - 1]) * 10 + (s[|s| - 1] as int - '0' as int)
  }

  /** `${n}` for a natural number: shortest decimal digits denoting `n`. */
  function NatToString(n: nat): (r: string)
    ensures |r| >= 1
    ensures forall i :: 0 <= i < |r| ==> IsDigit(r[i])
    ensures r[0] == '0' ==> n == 0 && r == "0"
    ensures DecimalValue(r) == n
  {
    if n < 10 then [Digit(n)]
    else
      var r := NatToString(n / 10) + [Digit(n % 10)];
      assert r[..|r| - 1] == NatToString(n / 10);
      r
  }

  /** `${n}` for an integer: a minus sign exactly for negative numbers,
      then the shortest decimal digits of the magnitude. */
  function IntToString(n: int): (r: string)
    ensures |r| >= 1 && (r[0] == '-' <==> n < 0)
    ensures var digits := if n < 0 then r[1..] else r;
      && |digits| >= 1
      && (forall i :: 0 <= i < |digits| ==> IsDigit(digits[i]))
      && (digits[0] == '0' ==> n == 0 && digits == "0")
      && DecimalValue(digits) == (if n < 0 then -n else n)
  {
    if n < 0 then "-" + NatToString(-n) else NatToString(n)
  }

  /** Distinct integers render differently, so the rendered text determines
      the number. */
  lemma IntToStringInjective(m: int, n: int)
    requires IntToString(m) == IntToString(n)
    ensures m == n
  {
  }
}
