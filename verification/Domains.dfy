/** The canonical form of a configured domain list. */
module Domains {
  import opened Collections
  import opened Strings

  /** Go's string order: by the first difference, a proper prefix first. */
  predicate Less(a: string, b: string) {
    if b == "" then false
    else if a == "" then true
    else a[0] < b[0] || (a[0] == b[0] && Less(a[1..], b[1..]))
  }

  /** The strings agree before position `k`, where the first has the smaller character. */
  ghost predicate SmallerAt(a: string, b: string, k: int) {
    0 <= k < |a| && k < |b| && a[..k] == b[..k] && a[k] < b[k]
  }

  /** A string comes before another exactly when it is a proper prefix of it, or has the
      smaller character where the two first differ. */
  lemma {:induction false} LessExactly(a: string, b: string)
    ensures Less(a, b) <==> a < b || exists k :: SmallerAt(a, b, k)
    decreases |a|
  {
    if a != "" && b != "" {
      LessExactly(a[1..], b[1..]);
      LessTail(a, b);
    }
  }

  lemma LessTail(a: string, b: string)
    requires a != "" && b != ""
    ensures a < b <==> a[0] == b[0] && a[1..] < b[1..]
    ensures (exists k :: SmallerAt(a, b, k)) <==> a[0] < b[0] || (a[0] == b[0] && exists k :: SmallerAt(a[1..], b[1..], k))
  {
    if k :| SmallerAt(a, b, k) && k > 0 {
      assert a[..k][0] == b[..k][0] && a[1..][..k - 1] == a[..k][1..] && b[1..][..k - 1] == b[..k][1..];
      assert SmallerAt(a[1..], b[1..], k - 1);
    }
    if a[0] == b[0] {
      if k :| SmallerAt(a[1..], b[1..], k) {
        assert a[..k + 1] == [a[0]] + a[1..][..k] && b[..k + 1] == [b[0]] + b[1..][..k];
        assert SmallerAt(a, b, k + 1);
      }
    }
    if a[0] < b[0] {
      assert SmallerAt(a, b, 0);
    }
  }

  lemma {:induction false} LessIrreflexive(a: string)
    ensures !Less(a, a)
  {
    if a != "" {
      LessIrreflexive(a[1..]);
    }
  }

  lemma {:induction false} LessTotal(a: string, b: string)
    ensures Less(a, b) || Less(b, a) || a == b
    ensures !(Less(a, b) && Less(b, a))
    ensures a == b ==> !Less(a, b)
    decreases |a| + |b|
  {
    LessIrreflexive(a);
    if a != "" && b != "" {
      LessTotal(a[1..], b[1..]);
      assert a == [a[0]] + a[1..] && b == [b[0]] + b[1..];
    }
  }

  lemma {:induction false} LessTransitive(a: string, b: string, c: string)
    requires Less(a, b) && Less(b, c)
    ensures Less(a, c)
    decreases |b|
  {
    if a != "" && a[0] == b[0] == c[0] {
      LessTransitive(a[1..], b[1..], c[1..]);
    }
  }

  ghost predicate Sorted(s: seq<string>) {
    forall i, j :: 0 <= i < j < |s| ==> Less(s[i], s[j])
  }

  function Name(x: string): string { ToLower(TrimSpace(x)) }

  function Cleaned(domains: seq<string>): (c: seq<string>)
    ensures |c| == |domains| && forall i :: 0 <= i < |c| ==> c[i] == Name(domains[i])
  {
    seq(|domains|, i requires 0 <= i < |domains| => Name(domains[i]))
  }

  function NonBlank(c: seq<string>): set<string> { set x | x in c && x != "" }

  /** The names a list stands for. */
  function Names(domains: seq<string>): set<string> { NonBlank(Cleaned(domains)) }

  /** Inserts a name in its place, unless it is there already. */
  function Insert(x: string, s: seq<string>): seq<string> {
    if s == [] then [x]
    else if x == s[0] then s
    else if Less(x, s[0]) then [x] + s
    else [s[0]] + Insert(x, s[1..])
  }

  function SortedNames(c: seq<string>): seq<string> {
    if c == [] then [] else if c[0] == "" then SortedNames(c[1..]) else Insert(c[0], SortedNames(c[1..]))
  }

  function Canonical(domains: seq<string>): seq<string> { SortedNames(Cleaned(domains)) }

  ghost predicate SameMembers(a: seq<string>, b: set<string>) {
    forall x :: x in a <==> x in b
  }

  lemma {:induction false} InsertMembers(x: string, s: seq<string>, y: string)
    ensures y in Insert(x, s) <==> y == x || y in s
  {
    if s != [] && x != s[0] && !Less(x, s[0]) {
      InsertMembers(x, s[1..], y);
      assert s == [s[0]] + s[1..];
    }
  }

  lemma {:induction false} InsertSorted(x: string, s: seq<string>)
    requires Sorted(s)
    ensures Sorted(Insert(x, s))
  {
    if s != [] && x != s[0] {
      LessTotal(x, s[0]);
      if Less(x, s[0]) {
        forall j | 0 < j < |s|
          ensures Less(x, s[j])
        {
          LessTransitive(x, s[0], s[j]);
        }
      } else {
        var rest := Insert(x, s[1..]);
        InsertSorted(x, s[1..]);
        forall j | 0 <= j < |rest|
          ensures Less(s[0], rest[j])
        {
          InsertMembers(x, s[1..], rest[j]);
          assert rest[j] in rest;
        }
      }
    }
  }

  lemma {:induction false} SortedNamesMeaning(c: seq<string>)
    ensures Sorted(SortedNames(c)) && SameMembers(SortedNames(c), NonBlank(c))
  {
    if c != [] {
      SortedNamesMeaning(c[1..]);
      InsertSorted(c[0], SortedNames(c[1..]));
      assert c == [c[0]] + c[1..];
      forall y
        ensures y in SortedNames(c) <==> y in NonBlank(c)
      {
        InsertMembers(c[0], SortedNames(c[1..]), y);
      }
    }
  }

  lemma CanonicalMeaning(domains: seq<string>)
    ensures Sorted(Canonical(domains)) && SameMembers(Canonical(domains), Names(domains))
  {
    SortedNamesMeaning(Cleaned(domains));
  }

  lemma NamesMembers(domains: seq<string>, n: string)
    ensures n in Names(domains) <==> n != "" && exists i :: 0 <= i < |domains| && Name(domains[i]) == n
  {
  }

  lemma {:induction false} SortedUnique(a: seq<string>, b: seq<string>)
    requires Sorted(a) && Sorted(b) && forall x :: x in a <==> x in b
    ensures a == b
    decreases |a|
  {
    if a != [] && b != [] {
      assert a[0] in a && b[0] in b;
      LeastFirst(a, b[0]);
      LeastFirst(b, a[0]);
      LessTotal(a[0], b[0]);
      assert a[0] == b[0];
      forall x
        ensures x in a[1..] <==> x in b[1..]
      {
        TailMembers(a, x);
        TailMembers(b, x);
      }
      SortedUnique(a[1..], b[1..]);
      assert a == [a[0]] + a[1..] && b == [b[0]] + b[1..];
    } else {
      HasMember(a);
      HasMember(b);
    }
  }

  lemma HasMember(s: seq<string>)
    ensures s == [] || exists x :: x in s
  {
    assert s == [] || s[0] in s;
  }

  lemma LeastFirst(s: seq<string>, x: string)
    requires Sorted(s) && x in s
    ensures x == s[0] || Less(s[0], x)
  {
  }

  lemma TailMembers(s: seq<string>, x: string)
    requires Sorted(s) && s != []
    ensures x in s[1..] <==> x in s && x != s[0]
  {
    LessIrreflexive(s[0]);
    assert s == [s[0]] + s[1..];
  }

  /** Two lists have the same canonical form exactly when they stand for the same
      names: order, case, surrounding space, blanks and repeats do not matter. */
  lemma CanonicalIffSameNames(a: seq<string>, b: seq<string>)
    ensures Canonical(a) == Canonical(b) <==> Names(a) == Names(b)
  {
    CanonicalMeaning(a);
    CanonicalMeaning(b);
    if Names(a) == Names(b) {
      SortedUnique(Canonical(a), Canonical(b));
    }
  }

  /** Two names written with any blanks, tabs and line ends around them stand for the same
      name exactly when they differ in the case of letters at most. */
  lemma SameNameExactly(left: string, a: string, right: string, left': string, b: string, right': string)
    requires Padding(left) && Padding(right) && VisibleEnds(a)
    requires Padding(left') && Padding(right') && VisibleEnds(b)
    ensures Name(left + a + right) == Name(left' + b + right') <==> SameButCase(a, b)
  {
    NormalExactly(left, a, right, left', b, right');
  }

  lemma NameIdempotent(x: string)
    ensures Name(Name(x)) == Name(x)
  {
    ToLowerKeepsTrimmed(TrimSpace(x));
    TrimTrimmed(ToLower(TrimSpace(x)), IsSpace);
    ToLowerIdempotent(TrimSpace(x));
  }

  /** A sorted list of canonical names is its own canonical form. */
  lemma CanonicalLiteral(c: seq<string>)
    requires Sorted(c)
    requires forall k :: 0 <= k < |c| ==> Name(c[k]) == c[k] && c[k] != ""
    ensures Canonical(c) == c && SameMembers(c, Names(c))
  {
    CanonicalMeaning(c);
    assert Cleaned(c) == c;
    SortedUnique(Canonical(c), c);
  }

  lemma CanonicalIdempotent(domains: seq<string>)
    ensures Canonical(Canonical(domains)) == Canonical(domains)
  {
    CanonicalMeaning(domains);
    var c := Canonical(domains);
    forall k | 0 <= k < |c|
      ensures Name(c[k]) == c[k] && c[k] != ""
    {
      assert c[k] in c;
      NamesMembers(domains, c[k]);
      var i :| 0 <= i < |domains| && Name(domains[i]) == c[k];
      NameIdempotent(domains[i]);
    }
    CanonicalLiteral(c);
  }

  /** The canonical form of names with no comma survives joining with commas. */
  lemma CanonicalCommaFree(domains: seq<string>)
    requires forall k :: 0 <= k < |domains| ==> ',' !in domains[k]
    ensures CommaFree(Canonical(domains))
  {
    CanonicalMeaning(domains);
    var c := Canonical(domains);
    forall k | 0 <= k < |c|
      ensures c[k] != "" && ',' !in c[k]
    {
      assert c[k] in c;
      NamesMembers(domains, c[k]);
      var i :| 0 <= i < |domains| && Name(domains[i]) == c[k];
      NameCommas(domains[i]);
    }
  }

  lemma NameCommas(y: string)
    requires ',' !in y
    ensures ',' !in Name(y)
  {
    var t := TrimSpace(y);
    forall i | 0 <= i < |Name(y)|
      ensures Name(y)[i] != ','
    {
      assert Name(y)[i] == LowerChar(t[i]) && t[i] in y;
    }
  }

  /** A name that is already as the canonical form has it. */
  ghost predicate Plain(x: string) {
    x != "" && Trimmed(x, IsSpace) && forall i :: 0 <= i < |x| ==> LowerChar(x[i]) == x[i]
  }

  lemma PlainName(x: string)
    requires Plain(x)
    ensures Name(x) == x
  {
    TrimTrimmed(x, IsSpace);
  }

  lemma PlainCanonical(c: seq<string>)
    requires Sorted(c) && forall k :: 0 <= k < |c| ==> Plain(c[k])
    ensures Canonical(c) == c && SameMembers(c, Names(c))
  {
    forall k | 0 <= k < |c|
      ensures Name(c[k]) == c[k] && c[k] != ""
    {
      PlainName(c[k]);
    }
    CanonicalLiteral(c);
  }

  lemma JoinPair(a: string, b: string)
    ensures Join([a, b], ",") == a + "," + b && Join([a + "," + b], ",") == a + "," + b
  {
    assert [a, b][1..] == [b];
  }

  lemma PlainPair(a: string, b: string)
    requires Plain(a) && Plain(b)
    ensures Plain(a + "," + b)
  {
    var x := a + "," + b;
    forall i | 0 <= i < |x|
      ensures LowerChar(x[i]) == x[i]
    {
      if i > |a| {
        assert x[i] == b[i - |a| - 1];
      }
    }
  }

  /** With a comma in a name, two different sets of names join to the same string. */
  lemma CommaHidesChange(a: string, b: string)
    requires Plain(a) && Plain(b) && Less(a, b)
    ensures Join(Canonical([a + "," + b]), ",") == Join(Canonical([a, b]), ",")
    ensures Names([a + "," + b]) != Names([a, b])
  {
    PlainPair(a, b);
    JoinPair(a, b);
    SetsDiffer(a, b, a + "," + b);
  }

  lemma SetsDiffer(a: string, b: string, x: string)
    requires Plain(a) && Plain(b) && Less(a, b) && Plain(x) && x != a
    ensures Canonical([x]) == [x] && Canonical([a, b]) == [a, b] && Names([x]) != Names([a, b])
  {
    PlainCanonical([x]);
    PlainCanonical([a, b]);
    assert a in Names([a, b]) by {
      assert [a, b][0] == a;
    }
    assert a !in Names([x]) by {
      assert a !in [x];
    }
  }

  /** Against names without commas, the joined string hides a change of the names exactly
      when some new name has a comma and the new names, split at their commas, are the
      old ones. */
  lemma CommaHidesExactly(before: seq<string>, after: seq<string>)
    requires CommaFree(Canonical(before))
    ensures Join(Canonical(before), ",") == Join(Canonical(after), ",") && Names(before) != Names(after)
      <==> (exists k :: 0 <= k < |Canonical(after)| && ',' in Canonical(after)[k])
           && SplitAll(Canonical(after)) == Canonical(before)
  {
    CanonicalIffSameNames(before, after);
    CanonicalNonEmpty(after);
    HidesExactly(Canonical(before), Canonical(after));
  }

  lemma CanonicalNonEmpty(domains: seq<string>)
    ensures forall k :: 0 <= k < |Canonical(domains)| ==> Canonical(domains)[k] != ""
  {
    CanonicalMeaning(domains);
    var c := Canonical(domains);
    forall k | 0 <= k < |c|
      ensures c[k] != ""
    {
      assert c[k] in c;
    }
  }

  lemma HidesExactly(a: seq<string>, b: seq<string>)
    requires CommaFree(a) && forall k :: 0 <= k < |b| ==> b[k] != ""
    ensures Join(a, ",") == Join(b, ",") && a != b
      <==> (exists k :: 0 <= k < |b| && ',' in b[k]) && SplitAll(b) == a
  {
    SplitAllPlain(a);
    if !exists k :: 0 <= k < |b| && ',' in b[k] {
      SplitAllPlain(b);
    }
    if a != [] && b != [] {
      JoinSameExactly(a, b);
    }
  }

  method SortStrings(d: seq<string>) returns (s: seq<string>)
    requires Distinct(d)
    ensures Sorted(s) && forall x :: x in s <==> x in d
  {
    s := [];
    var i := 0;
    while i < |d|
      invariant 0 <= i <= |d|
      invariant Sorted(s) && forall x :: x in s <==> x in d[..i]
    {
      InsertSorted(d[i], s);
      forall x
        ensures x in Insert(d[i], s) <==> x == d[i] || x in s
      {
        InsertMembers(d[i], s, x);
      }
      s := Insert(d[i], s);
      assert d[..i + 1] == d[..i] + [d[i]];
      i := i + 1;
    }
    assert d[..i] == d;
  }

  ghost predicate Collected(d: seq<string>, seen: set<string>, c: seq<string>) {
    Distinct(d) && SameMembers(d, seen) && seen == NonBlank(c)
  }

  lemma CollectOne(d: seq<string>, seen: set<string>, c: seq<string>, x: string)
    requires Collected(d, seen, c)
    ensures x == "" || x in seen ==> Collected(d, seen, c + [x])
    ensures x != "" && x !in seen ==> Collected(d + [x], seen + {x}, c + [x])
  {
    assert NonBlank(c + [x]) == NonBlank(c) + (if x == "" then {} else {x});
  }

  /** The names of the list, in the order of their first occurrence. */
  method Deduplicate(domains: seq<string>) returns (d: seq<string>)
    ensures Distinct(d) && SameMembers(d, Names(domains))
  {
    d := [];
    var seen: set<string> := {};
    var i := 0;
    while i < |domains|
      invariant 0 <= i <= |domains|
      invariant Collected(d, seen, Cleaned(domains)[..i])
    {
      var x := ToLower(TrimSpace(domains[i]));
      assert Cleaned(domains)[..i + 1] == Cleaned(domains)[..i] + [x];
      CollectOne(d, seen, Cleaned(domains)[..i], x);
      i := i + 1;
      if x == "" || x in seen {
        continue;
      }
      seen := seen + {x};
      d := d + [x];
    }
    assert Cleaned(domains)[..i] == Cleaned(domains);
  }

  /** The list is the canonical form: strictly sorted, without repeats or blanks. */
  method NormalizedDomains(domains: seq<string>) returns (d: seq<string>)
    ensures d == Canonical(domains)
    ensures Sorted(d) && SameMembers(d, Names(domains))
  {
    d := Deduplicate(domains);
    d := SortStrings(d);
    CanonicalMeaning(domains);
    SortedUnique(d, Canonical(domains));
  }
}
