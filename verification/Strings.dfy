/** The string helpers the modelled code takes from its standard libraries. */
module Strings {

  /** The characters Unicode calls white space; none of them has a case. */
  predicate IsSpace(c: char) {
    var n := c as int;
    || 0x09 <= n <= 0x0D || n == 0x20 || n == 0x85 || n == 0xA0 || n == 0x1680 || 0x2000 <= n <= 0x200A
    || n == 0x2028 || n == 0x2029 || n == 0x202F || n == 0x205F || n == 0x3000
  }

  function LowerChar(c: char): char {
    if 'A' <= c <= 'Z' then (c as int + 32) as char else c
  }

  function ToLower(s: string): (r: string)
    ensures |r| == |s| && forall i :: 0 <= i < |s| ==> r[i] == LowerChar(s[i])
  {
    if s == "" then "" else [LowerChar(s[0])] + ToLower(s[1..])
  }

  function TrimLeft(s: string, space: char -> bool): (r: string)
    ensures r == "" || !space(r[0])
    ensures |r| <= |s| && s[|s| - |r|..] == r
    ensures forall i :: 0 <= i < |s| - |r| ==> space(s[i])
  {
    if s != "" && space(s[0]) then TrimLeft(s[1..], space) else s
  }

  function TrimRight(s: string, space: char -> bool): (r: string)
    ensures r == "" || !space(r[|r| - 1])
    ensures |r| <= |s| && s[..|r|] == r
    ensures forall i :: |r| <= i < |s| ==> space(s[i])
  {
    if s != "" && space(s[|s| - 1]) then TrimRight(s[..|s| - 1], space) else s
  }

  function TrimBy(s: string, space: char -> bool): (r: string)
    ensures Trimmed(r, space) && |r| <= |s|
    ensures forall i :: 0 <= i < |r| ==> r[i] in s
  {
    var l := TrimLeft(s, space);
    var r := TrimRight(l, space);
    assert r != "" ==> r[0] == l[0];
    r
  }

  predicate Trimmed(s: string, space: char -> bool) {
    s == "" || (!space(s[0]) && !space(s[|s| - 1]))
  }

  /** Where the trimmed part of a string lies. */
  lemma TrimSlice(s: string, space: char -> bool) returns (lo: nat, hi: nat)
    ensures lo <= hi <= |s| && TrimBy(s, space) == s[lo..hi]
    ensures forall i :: 0 <= i < lo || hi <= i < |s| ==> space(s[i])
  {
    var l := TrimLeft(s, space);
    var r := TrimRight(l, space);
    lo, hi := |s| - |l|, |s| - |l| + |r|;
    SliceOfSlice(s, l, r, lo, hi, space);
  }

  lemma SliceOfSlice(s: string, l: string, r: string, lo: nat, hi: nat, space: char -> bool)
    requires |l| <= |s| && lo == |s| - |l| && s[lo..] == l
    requires |r| <= |l| && hi == lo + |r| && l[..|r|] == r && forall i :: |r| <= i < |l| ==> space(l[i])
    ensures s[lo..hi] == r && forall i :: hi <= i < |s| ==> space(s[i])
  {
    forall i | hi <= i < |s|
      ensures space(s[i])
    {
      assert s[i] == l[i - lo];
    }
  }

  function TrimSpace(s: string): string { TrimBy(s, IsSpace) }

  lemma TrimTrimmed(s: string, space: char -> bool)
    requires Trimmed(s, space)
    ensures TrimBy(s, space) == s
  {
  }

  lemma ToLowerIdempotent(s: string)
    ensures ToLower(ToLower(s)) == ToLower(s)
  {
  }

  lemma ToLowerKeepsTrimmed(s: string)
    requires Trimmed(s, IsSpace)
    ensures Trimmed(ToLower(s), IsSpace)
  {
  }

  /** The position of the last `c` in `s`, or -1. */
  function LastIndex(s: string, c: char): (r: int)
    ensures -1 <= r < |s|
    ensures r >= 0 ==> s[r] == c
    ensures forall i :: r < i < |s| ==> s[i] != c
  {
    if s == "" then -1 else if s[|s| - 1] == c then |s| - 1 else LastIndex(s[..|s| - 1], c)
  }

  function Join(parts: seq<string>, sep: string): string {
    if parts == [] then "" else if |parts| == 1 then parts[0] else parts[0] + sep + Join(parts[1..], sep)
  }

  /** The first `c` in `s`, or the length of `s`. */
  function Index(s: string, c: char): (r: nat)
    ensures r <= |s| && forall i :: 0 <= i < r ==> s[i] != c
    ensures r < |s| ==> s[r] == c
  {
    if s == "" || s[0] == c then 0 else Index(s[1..], c) + 1
  }

  lemma IndexAt(s: string, c: char, t: string)
    requires c !in s
    ensures Index(s + [c] + t, c) == |s| && (t == "" ==> Index(s, c) == |s|)
  {
    var u := s + [c] + t;
    assert forall i :: 0 <= i < |s| ==> u[i] == s[i] && s[i] != c;
    assert u[|s|] == c;
  }

  ghost predicate CommaFree(parts: seq<string>) {
    forall k :: 0 <= k < |parts| ==> parts[k] != "" && ',' !in parts[k]
  }

  /** Joining with commas loses nothing of names that are not empty and have no comma. */
  lemma {:induction false} JoinInjective(a: seq<string>, b: seq<string>)
    requires CommaFree(a) && CommaFree(b) && Join(a, ",") == Join(b, ",")
    ensures a == b
    decreases |a|
  {
    if a == [] || b == [] {
      assert a == b;
    } else {
      JoinHead(a);
      JoinHead(b);
      assert a[0] == b[0];
      var ra, rb := Join(a[1..], ","), Join(b[1..], ",");
      if |a| == 1 || |b| == 1 {
        assert |a| == |b| == 1;
      } else {
        assert Join(a, ",")[|a[0]| + 1..] == ra;
        assert Join(b, ",")[|b[0]| + 1..] == rb;
        JoinInjective(a[1..], b[1..]);
      }
      assert a == [a[0]] + a[1..] && b == [b[0]] + b[1..];
    }
  }

  lemma JoinHead(a: seq<string>)
    requires a != [] && CommaFree(a)
    ensures var j := Join(a, ",");
      j[..Index(j, ',')] == a[0] && (Index(j, ',') == |j| <==> |a| == 1)
  {
    var rest := Join(a[1..], ",");
    if |a| == 1 {
      IndexAt(a[0], ',', "");
    } else {
      IndexAt(a[0], ',', rest);
      assert Join(a, ",") == a[0] + [','] + rest;
    }
  }

  /** The parts of a string between its commas; there is always one. */
  function SplitAtCommas(s: string): (parts: seq<string>)
    ensures |parts| > 0
  {
    if s == "" then [""]
    else
      Grown(s[0], SplitAtCommas(s[1..]))
  }

  function SplitAll(names: seq<string>): seq<string> {
    if names == [] then [] else SplitAtCommas(names[0]) + SplitAll(names[1..])
  }

  lemma {:induction false} JoinUndoesSplit(s: string)
    ensures Join(SplitAtCommas(s), ",") == s
  {
    if s != "" {
      JoinUndoesSplit(s[1..]);
      var rest := SplitAtCommas(s[1..]);
      if s[0] == ',' {
        assert ([""] + rest)[1..] == rest;
      } else {
        var first := [s[0]] + rest[0];
        assert ([first] + rest[1..])[1..] == rest[1..];
        assert Join([first] + rest[1..], ",") == [s[0]] + Join(rest, ",");
      }
    }
  }

  lemma {:induction false} SplitPlain(s: string)
    requires ',' !in s
    ensures SplitAtCommas(s) == [s]
  {
    if s != "" {
      SplitPlain(s[1..]);
      assert [s[0]] + s[1..] == s;
    }
  }

  lemma {:induction false} SplitAppend(a: string, b: string)
    ensures SplitAtCommas(a + ("," + b)) == SplitAtCommas(a) + SplitAtCommas(b)
  {
    if a == "" {
      assert a + ("," + b) == "," + b && ("," + b)[1..] == b;
    } else {
      SplitAppend(a[1..], b);
      assert (a + ("," + b))[1..] == a[1..] + ("," + b);
      GrowFirst(a[0], SplitAtCommas(a[1..]), SplitAtCommas(b));
    }
  }

  /** What one more character in front makes of the parts. */
  function Grown(c: char, parts: seq<string>): seq<string>
    requires parts != []
  {
    if c == ',' then [""] + parts else [[c] + parts[0]] + parts[1..]
  }

  lemma GrowFirst(c: char, x: seq<string>, y: seq<string>)
    requires x != []
    ensures Grown(c, x + y) == Grown(c, x) + y
  {
    assert (x + y)[1..] == x[1..] + y;
  }

  lemma {:induction false} SplitJoin(names: seq<string>)
    requires names != []
    ensures SplitAtCommas(Join(names, ",")) == SplitAll(names)
  {
    if |names| == 1 {
      assert names[1..] == [];
    } else {
      SplitJoin(names[1..]);
      var rest := Join(names[1..], ",");
      assert names[0] + "," + rest == names[0] + ("," + rest);
      SplitAppend(names[0], rest);
    }
  }

  lemma {:induction false} SplitAllPlain(names: seq<string>)
    requires forall k :: 0 <= k < |names| ==> ',' !in names[k]
    ensures SplitAll(names) == names
  {
    if names != [] {
      SplitPlain(names[0]);
      SplitAllPlain(names[1..]);
      assert names == [names[0]] + names[1..];
    }
  }

  /** Two joins are the same exactly when the lists are, once all names are split at commas. */
  lemma JoinSameExactly(a: seq<string>, b: seq<string>)
    requires a != [] && b != []
    ensures Join(a, ",") == Join(b, ",") <==> SplitAll(a) == SplitAll(b)
  {
    SplitJoin(a);
    SplitJoin(b);
    JoinUndoesSplit(Join(a, ","));
    JoinUndoesSplit(Join(b, ","));
  }

  // ---------------------------------------------------------------------------
  // Case and white space, letter by letter

  predicate Capital(c: char) { 'A' <= c <= 'Z' }

  /** The first character is a capital and the second its small form. */
  predicate CapitalOf(a: char, b: char) { Capital(a) && b as int - 'a' as int == a as int - 'A' as int }

  predicate SameLetter(a: char, b: char) { a == b || CapitalOf(a, b) || CapitalOf(b, a) }

  lemma LowerCharExactly(a: char, b: char)
    ensures LowerChar(a) == LowerChar(b) <==> SameLetter(a, b)
    ensures !Capital(LowerChar(a))
  {
  }

  ghost predicate SameButCase(a: string, b: string) {
    |a| == |b| && forall i :: 0 <= i < |a| ==> SameLetter(a[i], b[i])
  }

  /** Two strings are the same in lower case exactly when they differ in the case of letters
      at most, and a string in lower case has no capital. */
  lemma LowerExactly(a: string, b: string)
    ensures ToLower(a) == ToLower(b) <==> SameButCase(a, b)
    ensures forall i :: 0 <= i < |a| ==> !Capital(ToLower(a)[i])
  {
    forall i | 0 <= i < |a|
      ensures !Capital(ToLower(a)[i])
    {
      LowerCharExactly(a[i], a[i]);
    }
    if |a| == |b| {
      forall i | 0 <= i < |a|
        ensures ToLower(a)[i] == ToLower(b)[i] <==> SameLetter(a[i], b[i])
      {
        LowerCharExactly(a[i], b[i]);
      }
    }
  }

  /** Blanks, tabs and line ends are white space, and visible ASCII characters are not. */
  lemma SpacesAre(c: char)
    ensures c in " \t\n\r" ==> IsSpace(c)
    ensures '!' <= c <= '~' ==> !IsSpace(c)
  {
  }

  /** Trimming takes the white space around a string, and no more. */
  lemma TrimPadded(left: string, s: string, right: string, space: char -> bool)
    requires forall i :: 0 <= i < |left| ==> space(left[i])
    requires forall i :: 0 <= i < |right| ==> space(right[i])
    requires Trimmed(s, space)
    ensures TrimBy(left + s + right, space) == s
  {
    if s == "" {
      AllTrimmed(left + s + right, space);
    } else {
      assert left + s + right == left + (s + right);
      LeftTrimmed(left, s + right, space);
      RightTrimmed(s, right, space);
    }
  }

  lemma {:induction false} AllTrimmed(s: string, space: char -> bool)
    requires forall i :: 0 <= i < |s| ==> space(s[i])
    ensures TrimBy(s, space) == ""
  {
    if s != "" {
      AllTrimmed(s[1..], space);
    }
  }

  lemma {:induction false} LeftTrimmed(left: string, s: string, space: char -> bool)
    requires forall i :: 0 <= i < |left| ==> space(left[i])
    requires s != "" && !space(s[0])
    ensures TrimLeft(left + s, space) == s
  {
    if left == "" {
      assert left + s == s;
    } else {
      assert (left + s)[1..] == left[1..] + s;
      LeftTrimmed(left[1..], s, space);
    }
  }

  lemma {:induction false} RightTrimmed(s: string, right: string, space: char -> bool)
    requires forall i :: 0 <= i < |right| ==> space(right[i])
    requires s != "" && !space(s[|s| - 1])
    ensures TrimRight(s + right, space) == s
    decreases |right|
  {
    if right == "" {
      assert s + right == s;
    } else {
      var n := |right| - 1;
      assert (s + right)[..|s + right| - 1] == s + right[..n];
      RightTrimmed(s, right[..n], space);
    }
  }

  /** Made of blanks, tabs and line ends. */
  predicate Padding(s: string) { forall i :: 0 <= i < |s| ==> s[i] in " \t\n\r" }

  /** A string that begins and ends with a visible ASCII character. */
  predicate VisibleEnds(s: string) { s != "" && '!' <= s[0] <= '~' && '!' <= s[|s| - 1] <= '~' }

  /** Trimmed and lowered, two padded strings are the same exactly when they differ in the
      case of letters at most. */
  lemma NormalExactly(left: string, a: string, right: string, left': string, b: string, right': string)
    requires Padding(left) && Padding(right) && VisibleEnds(a)
    requires Padding(left') && Padding(right') && VisibleEnds(b)
    ensures ToLower(TrimSpace(left + a + right)) == ToLower(TrimSpace(left' + b + right')) <==> SameButCase(a, b)
  {
    PaddedTrims(left, a, right);
    PaddedTrims(left', b, right');
    LowerExactly(a, b);
  }

  lemma PaddedTrims(left: string, a: string, right: string)
    requires Padding(left) && Padding(right) && VisibleEnds(a)
    ensures TrimSpace(left + a + right) == a
  {
    forall i | 0 <= i < |left|
      ensures IsSpace(left[i])
    {
      SpacesAre(left[i]);
    }
    forall i | 0 <= i < |right|
      ensures IsSpace(right[i])
    {
      SpacesAre(right[i]);
    }
    SpacesAre(a[0]);
    SpacesAre(a[|a| - 1]);
    TrimPadded(left, a, right, IsSpace);
  }
}
