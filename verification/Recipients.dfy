/** Recipient lists as the compose screen prints them and the client parses them. */
module Recipients {
  import opened Collections
  import opened Strings

  datatype Recipient = Recipient(name: Option<string>, address: string)

  /** JavaScript's white space: what trim() removes and \s matches. */
  predicate JsSpace(c: char) {
    var n := c as int;
    || 0x09 <= n <= 0x0D || n == 0x20 || n == 0xA0 || n == 0x1680 || 0x2000 <= n <= 0x200A
    || n == 0x2028 || n == 0x2029 || n == 0x202F || n == 0x205F || n == 0x3000 || n == 0xFEFF
  }

  /** The characters a dot in a regular expression does not match. */
  predicate LineBreak(c: char) {
    c == '\n' || c == '\r' || c as int == 0x2028 || c as int == 0x2029
  }

  predicate Separator(c: char) { c == ',' || c == ';' }

  ghost predicate SepFree(s: string) { forall i :: 0 <= i < |s| ==> !Separator(s[i]) }

  function Trim(s: string): string { TrimBy(s, JsSpace) }

  // ---------------------------------------------------------------------------
  // The parser

  /** The first separator, or the length of the string. */
  function FirstSep(s: string): (k: nat)
    ensures k <= |s| && SepFree(s[..k])
    ensures k < |s| ==> Separator(s[k])
  {
    if s == "" || Separator(s[0]) then 0
    else
      var k := FirstSep(s[1..]) + 1;
      assert s[..k] == [s[0]] + s[1..][..k - 1];
      k
  }

  /** split(/[,;]/) */
  function Split(s: string): (pieces: seq<string>)
    ensures forall k :: 0 <= k < |pieces| ==> SepFree(pieces[k])
    decreases |s|
  {
    var k := FirstSep(s);
    if k == |s| then [s] else [s[..k]] + Split(s[k + 1..])
  }

  /** The end of the run of white space that starts at `i`. */
  function SpaceEnd(token: string, i: nat): (p: nat)
    requires i <= |token|
    ensures i <= p <= |token| && forall k :: i <= k < p ==> JsSpace(token[k])
    ensures p < |token| ==> !JsSpace(token[p])
    decreases |token| - i
  {
    if i < |token| && JsSpace(token[i]) then SpaceEnd(token, i + 1) else i
  }

  /** Whether /^(.*?)\s*<([^>]+)>$/ matches with a first group of length `i`. */
  predicate MatchAt(token: string, i: nat) {
    && i <= |token|
    && (forall k :: 0 <= k < i ==> !LineBreak(token[k]))
    && var p := SpaceEnd(token, i);
       && p + 3 <= |token| && token[p] == '<' && token[|token| - 1] == '>'
       && forall k :: p < k < |token| - 1 ==> token[k] != '>'
  }

  /** The lazy first group is as short as it can be. */
  function FirstMatch(token: string, i: nat): (m: Option<nat>)
    requires i <= |token|
    ensures m.Some? ==> i <= m.value && MatchAt(token, m.value) && forall k :: i <= k < m.value ==> !MatchAt(token, k)
    ensures m.None? ==> forall k :: i <= k ==> !MatchAt(token, k)
    decreases |token| - i
  {
    if MatchAt(token, i) then Some(i) else if i == |token| then None else FirstMatch(token, i + 1)
  }

  function ParseToken(token: string): Recipient {
    match FirstMatch(token, 0)
    case Some(i) => Matched(token, i, SpaceEnd(token, i))
    case None => Recipient(None, token)
  }

  /** The captures of a match at `i` whose < is at `p`. */
  function Matched(token: string, i: nat, p: nat): Recipient
    requires i <= p < |token| - 1
  {
    Recipient(Some(Trim(token[..i])), Trim(token[p + 1..|token| - 1]))
  }

  /** A piece gives one recipient, unless it is blank. */
  function ParsePiece(piece: string): seq<Recipient> {
    var token := Trim(piece);
    if token == "" then [] else [ParseToken(token)]
  }

  function ParsePieces(pieces: seq<string>): seq<Recipient> {
    if pieces == [] then [] else ParsePiece(pieces[0]) + ParsePieces(pieces[1..])
  }

  function ParseRecipients(input: string): seq<Recipient> {
    if input == "" then [] else ParsePieces(Split(input))
  }

  // ---------------------------------------------------------------------------
  // The printer

  function PrintOne(r: Recipient): string {
    if r.name.Some? && r.name.value != "" then r.name.value + " <" + r.address + ">" else r.address
  }

  function PrintAll(rs: seq<Recipient>): (parts: seq<string>)
    ensures |parts| == |rs| && forall k :: 0 <= k < |rs| ==> parts[k] == PrintOne(rs[k])
  {
    seq(|rs|, k requires 0 <= k < |rs| => PrintOne(rs[k]))
  }

  function PrintRecipients(rs: seq<Recipient>): string { Join(PrintAll(rs), ", ") }

  // ---------------------------------------------------------------------------
  // When one recipient survives

  /** Every < in the name is followed by a > in the name. */
  ghost predicate AnglesClosed(s: string) {
    forall q :: 0 <= q < |s| && s[q] == '<' ==> exists k :: q < k < |s| && s[k] == '>'
  }

  /** What a caller can check of a recipient before printing it. */
  ghost predicate Faithful(r: Recipient) {
    && r.address != "" && Trimmed(r.address, JsSpace) && SepFree(r.address)
    && match r.name
       case None => FirstMatch(r.address, 0).None?
       case Some(n) =>
         && n != "" && Trimmed(n, JsSpace) && SepFree(n) && '>' !in r.address
         && (forall k :: 0 <= k < |n| ==> !LineBreak(n[k]))
         && AnglesClosed(n)
  }

  /** `t` is printed from the name `n` and the address `a`. */
  ghost predicate Formed(t: string, n: string, a: string) {
    && |t| == |n| + |a| + 3
    && (forall i :: 0 <= i < |n| ==> t[i] == n[i])
    && t[|n|] == ' ' && t[|n| + 1] == '<' && t[|t| - 1] == '>'
    && (forall i :: |n| + 2 <= i < |t| - 1 ==> t[i] == a[i - |n| - 2])
  }

  lemma PrintedIsFormed(n: string, a: string)
    ensures Formed(n + " <" + a + ">", n, a)
  {
  }

  lemma FormedSlices(t: string, n: string, a: string)
    requires Formed(t, n, a)
    ensures t[..|n|] == n && t[|n| + 2..|t| - 1] == a
  {
  }

  lemma FormedSpaces(t: string, n: string, a: string, i: nat)
    requires Formed(t, n, a) && n != "" && Trimmed(n, JsSpace) && i <= |n|
    ensures if i == |n| then SpaceEnd(t, i) == |n| + 1 else SpaceEnd(t, i) < |n|
  {
    assert !JsSpace(t[|n| - 1]) && JsSpace(t[|n|]) && !JsSpace(t[|n| + 1]);
  }

  lemma FormedTrim(t: string, n: string, a: string)
    requires Formed(t, n, a) && n != "" && !JsSpace(n[0])
    ensures Trim(t) == t
  {
    assert t[0] == n[0];
    TrimTrimmed(t, JsSpace);
  }

  /** A match that starts inside the name stops at a < of the name that no > follows
      before the end. */
  lemma MatchInName(t: string, n: string, a: string, i: nat)
    requires Formed(t, n, a) && n != "" && Trimmed(n, JsSpace) && i < |n| && MatchAt(t, i)
    ensures !AnglesClosed(n)
  {
    FormedSpaces(t, n, a, i);
    var p := SpaceEnd(t, i);
    assert n[p] == '<';
    forall k | p < k < |n|
      ensures n[k] != '>'
    {
      assert t[k] == n[k];
    }
  }

  lemma FormedMatch(t: string, n: string, a: string)
    requires Formed(t, n, a) && Faithful(Recipient(Some(n), a))
    ensures FirstMatch(t, 0) == Some(|n|) && SpaceEnd(t, |n|) == |n| + 1
  {
    FormedSpaces(t, n, a, |n|);
    forall k | |n| + 1 < k < |t| - 1
      ensures t[k] != '>'
    {
      assert t[k] == a[k - |n| - 2] && a[k - |n| - 2] in a;
    }
    assert MatchAt(t, |n|);
    forall i | 0 <= i < |n|
      ensures !MatchAt(t, i)
    {
      if MatchAt(t, i) {
        MatchInName(t, n, a, i);
      }
    }
  }

  lemma ParseFormed(t: string, n: string, a: string)
    requires Formed(t, n, a) && FirstMatch(t, 0) == Some(|n|) && SpaceEnd(t, |n|) == |n| + 1
    ensures ParseToken(t) == Recipient(Some(Trim(n)), Trim(a))
  {
    FormedSlices(t, n, a);
  }

  lemma NamedSurvives(t: string, n: string, a: string)
    requires Formed(t, n, a) && Faithful(Recipient(Some(n), a))
    ensures Trim(t) == t && ParseToken(t) == Recipient(Some(n), a)
  {
    FormedTrim(t, n, a);
    FormedMatch(t, n, a);
    ParseFormed(t, n, a);
    TrimTrimmed(n, JsSpace);
    TrimTrimmed(a, JsSpace);
  }

  /** If what is left of the inner text between `lo` and `hi`, without its outer white
      space, is as long as the address, it starts right after the < the printer put. */
  lemma SliceIsAddress(t: string, n: string, a: string, p: nat, lo: nat, hi: nat)
    requires Formed(t, n, a) && (a == "" || !JsSpace(a[|a| - 1]))
    requires p < lo <= hi <= |t| - 1 && t[p] == '<' && |a| == hi - lo
    requires forall k :: p < k < lo || hi <= k < |t| - 1 ==> JsSpace(t[k])
    ensures p == |n| + 1
  {
    assert !JsSpace(t[|n| + 1]) && !JsSpace(t[|t| - 2]);
  }

  /** If the parser finds the printed address again, its match ends where the printer
      put the <. */
  lemma MatchEndsAtAngle(t: string, n: string, a: string, p: nat)
    requires Formed(t, n, a) && Trimmed(a, JsSpace)
    requires p + 3 <= |t| && t[p] == '<' && Trim(t[p + 1..|t| - 1]) == a
    ensures p == |n| + 1
  {
    var inner := t[p + 1..|t| - 1];
    var lo, hi := TrimSlice(inner, JsSpace);
    forall k | p < k < p + 1 + lo || p + 1 + hi <= k < |t| - 1
      ensures JsSpace(t[k])
    {
      assert inner[k - p - 1] == t[k];
    }
    SliceIsAddress(t, n, a, p, p + 1 + lo, p + 1 + hi);
  }

  lemma MatchedFields(token: string, n: string, a: string) returns (i: nat, p: nat)
    requires ParseToken(token) == Recipient(Some(n), a)
    ensures FirstMatch(token, 0) == Some(i) && MatchAt(token, i) && p == SpaceEnd(token, i)
    ensures Trim(token[p + 1..|token| - 1]) == a && Trimmed(n, JsSpace) && Trimmed(a, JsSpace)
  {
    MatchFound(token);
    i := FirstMatch(token, 0).value;
    p := SpaceEnd(token, i);
    ParseMatched(token, i);
    TrimIsTrimmed(token[..i]);
    TrimIsTrimmed(token[p + 1..|token| - 1]);
  }

  lemma TrimIsTrimmed(s: string)
    ensures Trimmed(Trim(s), JsSpace)
  {
  }

  lemma MatchFound(token: string)
    ensures ParseToken(token).name.Some? <==> FirstMatch(token, 0).Some?
  {
  }

  lemma ParseMatched(token: string, i: nat)
    requires FirstMatch(token, 0) == Some(i)
    ensures MatchAt(token, i) && i <= SpaceEnd(token, i) < |token| - 1
    ensures ParseToken(token) == Matched(token, i, SpaceEnd(token, i))
  {
  }

  lemma NamedOnlyIf(t: string, n: string, a: string)
    requires Formed(t, n, a) && n != "" && SepFree(n) && SepFree(a)
    requires ParseToken(Trim(t)) == Recipient(Some(n), a)
    ensures Faithful(Recipient(Some(n), a))
  {
    var _, _ := MatchedFields(Trim(t), n, a);
    FormedTrim(t, n, a);
    var i, p := MatchedFields(t, n, a);
    MatchEndsAtAngle(t, n, a, p);
    MatchedIsFaithful(t, n, a, i);
  }

  lemma MatchedIsFaithful(t: string, n: string, a: string, i: nat)
    requires Formed(t, n, a) && n != "" && SepFree(n) && SepFree(a) && Trimmed(n, JsSpace) && Trimmed(a, JsSpace)
    requires FirstMatch(t, 0) == Some(i) && SpaceEnd(t, i) == |n| + 1
    ensures Faithful(Recipient(Some(n), a))
  {
    if i < |n| {
      FormedSpaces(t, n, a, i);
    }
    assert forall k :: 0 <= k < |n| ==> n[k] == t[k];
    forall k | 0 <= k < |a|
      ensures a[k] != '>'
    {
      assert t[k + |n| + 2] == a[k];
    }
    NoOpenAngle(t, n, a, i);
  }

  lemma NoOpenAngle(t: string, n: string, a: string, i: nat)
    requires Formed(t, n, a) && i >= |n| && '>' !in a && a != ""
    requires forall k :: 0 <= k < |n| ==> !LineBreak(n[k])
    requires forall k :: 0 <= k < i ==> !MatchAt(t, k)
    ensures AnglesClosed(n)
  {
    forall q | 0 <= q < |n| && n[q] == '<'
      ensures exists k :: q < k < |n| && n[k] == '>'
    {
      assert t[q] == '<' && SpaceEnd(t, q) == q;
      assert !MatchAt(t, q);
      var k :| q < k < |t| - 1 && t[k] == '>';
      assert forall j :: |n| + 2 <= j < |t| - 1 ==> t[j] in a;
      assert k < |n| && n[k] == '>';
    }
  }

  /** A recipient printed by itself is parsed back exactly when it is faithful. */
  lemma OneSurvives(r: Recipient)
    requires SepFree(r.address) && (r.name.Some? ==> SepFree(r.name.value))
    ensures var token := Trim(PrintOne(r));
      (token != "" && ParseToken(token) == r) <==> Faithful(r)
  {
    match r.name
    case None => BareSurvives(r.address);
    case Some(n) =>
      if n == "" {
        BlankNameFails(r.address);
      } else {
        var t := n + " <" + r.address + ">";
        PrintedIsFormed(n, r.address);
        if Faithful(r) {
          NamedSurvives(t, n, r.address);
          assert t != "";
        }
        if ParseToken(Trim(t)) == r {
          NamedOnlyIf(t, n, r.address);
        }
      }
  }

  lemma BareSurvives(a: string)
    requires SepFree(a)
    ensures (Trim(a) != "" && ParseToken(Trim(a)) == Recipient(None, a)) <==> Faithful(Recipient(None, a))
  {
    if Trimmed(a, JsSpace) {
      TrimTrimmed(a, JsSpace);
    }
  }

  /** With an empty name the bare address is printed, and no parse gives both back. */
  lemma BlankNameFails(a: string)
    ensures ParseToken(Trim(a)) != Recipient(Some(""), a)
  {
    var token := Trim(a);
    if FirstMatch(token, 0).Some? {
      var p := SpaceEnd(token, FirstMatch(token, 0).value);
      assert |Trim(token[p + 1..|token| - 1])| < |token|;
    }
  }

  // ---------------------------------------------------------------------------
  // Lists

  ghost predicate FieldsSepFree(r: Recipient) {
    SepFree(r.address) && (r.name.Some? ==> SepFree(r.name.value))
  }

  lemma TrimSepFree(s: string)
    requires SepFree(s)
    ensures SepFree(Trim(s))
  {
    var t := Trim(s);
    forall i | 0 <= i < |t|
      ensures !Separator(t[i])
    {
      assert t[i] in s;
    }
  }

  lemma TokenFieldsSepFree(token: string)
    requires SepFree(token)
    ensures FieldsSepFree(ParseToken(token))
  {
    match FirstMatch(token, 0)
    case Some(i) =>
      TrimSepFree(token[..i]);
      TrimSepFree(token[SpaceEnd(token, i) + 1..|token| - 1]);
    case None =>
  }

  /** No parsed field ever contains a separator. */
  lemma {:induction false} ParsedSepFree(pieces: seq<string>)
    requires forall k :: 0 <= k < |pieces| ==> SepFree(pieces[k])
    ensures forall r :: r in ParsePieces(pieces) ==> FieldsSepFree(r)
    ensures |ParsePieces(pieces)| <= |pieces|
  {
    if pieces != [] {
      TrimSepFree(pieces[0]);
      TokenFieldsSepFree(Trim(pieces[0]));
      ParsedSepFree(pieces[1..]);
    }
  }

  lemma SplitAtComma(x: string, y: string)
    requires SepFree(x)
    ensures Split(x) == [x] && Split(x + "," + y) == [x] + Split(y)
  {
    var s := x + "," + y;
    var k := FirstSep(s);
    assert forall i :: 0 <= i < |x| ==> s[i] == x[i];
    assert s[|x|] == ',';
    assert k <= |x| by {
      assert forall i :: 0 <= i < k ==> !Separator(s[..k][i]) && s[..k][i] == s[i];
      assert Separator(s[|x|]);
    }
    assert k == |x| && s[..k] == x && s[k + 1..] == y;
    assert FirstSep(x) == |x|;
  }

  lemma TrimLead(x: string)
    ensures Trim(" " + x) == Trim(x)
  {
    assert (" " + x)[1..] == x;
  }

  /** Parsing the pieces of a printed list, one piece per recipient. */
  function ParseEach(rs: seq<Recipient>): seq<Recipient> {
    if rs == [] then [] else ParsePiece(PrintOne(rs[0])) + ParseEach(rs[1..])
  }

  lemma PrintedSepFree(r: Recipient)
    requires FieldsSepFree(r)
    ensures SepFree(PrintOne(r)) && SepFree(" " + PrintOne(r))
  {
  }

  lemma PieceLead(lead: string, x: string)
    requires lead == "" || lead == " "
    ensures ParsePiece(lead + x) == ParsePiece(x)
  {
    if lead == "" {
      assert lead + x == x;
    } else {
      TrimLead(x);
    }
  }

  lemma JoinMore(lead: string, parts: seq<string>)
    requires parts != []
    ensures lead + Join(parts, ", ") ==
      if |parts| == 1 then lead + parts[0] else (lead + parts[0]) + "," + (" " + Join(parts[1..], ", "))
  {
    if |parts| > 1 {
      CommaSpace(lead, parts[0], Join(parts[1..], ", "));
    }
  }

  lemma CommaSpace(lead: string, x: string, rest: string)
    ensures lead + (x + ", " + rest) == (lead + x) + "," + (" " + rest)
  {
  }

  lemma PiecesHead(x: string, pieces: seq<string>)
    ensures ParsePieces([x] + pieces) == ParsePiece(x) + ParsePieces(pieces)
  {
    assert ([x] + pieces)[1..] == pieces;
  }

  lemma {:induction false} ParsePrinted(lead: string, rs: seq<Recipient>)
    requires (lead == "" || lead == " ") && rs != [] && forall k :: 0 <= k < |rs| ==> FieldsSepFree(rs[k])
    ensures ParsePieces(Split(lead + Join(PrintAll(rs), ", "))) == ParseEach(rs)
    decreases |rs|
  {
    var x := lead + PrintOne(rs[0]);
    PrintedSepFree(rs[0]);
    PieceLead(lead, PrintOne(rs[0]));
    JoinMore(lead, PrintAll(rs));
    assert PrintAll(rs)[1..] == PrintAll(rs[1..]);
    if |rs| == 1 {
      SplitAtComma(x, "");
      PiecesHead(x, []);
      assert [x] + [] == [x];
    } else {
      var rest := " " + Join(PrintAll(rs[1..]), ", ");
      SplitAtComma(x, rest);
      PiecesHead(x, Split(rest));
      ParsePrinted(" ", rs[1..]);
    }
  }

  lemma {:induction false} EachIffAll(rs: seq<Recipient>)
    requires forall k :: 0 <= k < |rs| ==> FieldsSepFree(rs[k])
    ensures |ParseEach(rs)| <= |rs|
    ensures ParseEach(rs) == rs <==> forall k :: 0 <= k < |rs| ==> Faithful(rs[k])
    decreases |rs|
  {
    if rs != [] {
      var token, rest := Trim(PrintOne(rs[0])), rs[1..];
      OneSurvives(rs[0]);
      EachIffAll(rest);
      HeadAndRest(rs, token, if token == "" then Recipient(None, "") else ParseToken(token), ParseEach(rest));
    }
  }

  lemma HeadAndRest(rs: seq<Recipient>, token: string, head: Recipient, parsed: seq<Recipient>)
    requires rs != [] && |parsed| <= |rs| - 1
    requires (token != "" && head == rs[0]) <==> Faithful(rs[0])
    requires parsed == rs[1..] <==> forall k :: 0 <= k < |rs[1..]| ==> Faithful(rs[1..][k])
    ensures (if token == "" then [] else [head]) + parsed == rs <==> forall k :: 0 <= k < |rs| ==> Faithful(rs[k])
  {
    var both := [head] + parsed;
    assert both == rs <==> head == rs[0] && parsed == rs[1..] by {
      assert both[1..] == parsed && rs == [rs[0]] + rs[1..];
    }
    assert (forall k :: 0 <= k < |rs| ==> Faithful(rs[k])) <==>
      Faithful(rs[0]) && forall k :: 0 <= k < |rs[1..]| ==> Faithful(rs[1..][k]);
    assert [] + parsed == parsed;
  }

  /** Parsing undoes printing for exactly the lists of faithful recipients, of any
      length and in order. */
  lemma ParseUndoesPrint(rs: seq<Recipient>)
    ensures ParseRecipients(PrintRecipients(rs)) == rs <==> forall k :: 0 <= k < |rs| ==> Faithful(rs[k])
  {
    var s := PrintRecipients(rs);
    if rs == [] {
    } else if forall k :: 0 <= k < |rs| ==> FieldsSepFree(rs[k]) {
      ParsePrinted("", rs);
      assert "" + s == s;
      EachIffAll(rs);
      if s == "" {
        BlankPrint(rs);
      }
    } else {
      ParsedSepFree(Split(s));
      if ParseRecipients(s) == rs {
        forall k | 0 <= k < |rs|
          ensures FieldsSepFree(rs[k])
        {
          assert rs[k] in rs;
        }
      }
    }
  }

  /** Only a recipient with nothing to print prints as nothing. */
  lemma BlankPrint(rs: seq<Recipient>)
    requires rs != [] && PrintRecipients(rs) == ""
    ensures !Faithful(rs[0])
  {
    assert |PrintAll(rs)| > 1 ==> |PrintRecipients(rs)| >= 2;
    assert PrintAll(rs)[0] == PrintOne(rs[0]);
  }

  /** In particular names and addresses that are trimmed and free of separators, angle
      brackets and line breaks survive. */
  lemma PlainRecipientsSurvive(rs: seq<Recipient>)
    requires forall k :: 0 <= k < |rs| ==> Plain(rs[k])
    ensures ParseRecipients(PrintRecipients(rs)) == rs
  {
    forall k | 0 <= k < |rs|
      ensures Faithful(rs[k])
    {
      assert Plain(rs[k]);
      var a := rs[k].address;
      assert a[|a| - 1] in a;
      assert forall i :: !MatchAt(a, i);
    }
    ParseUndoesPrint(rs);
  }

  ghost predicate PlainText(s: string) {
    && s != "" && Trimmed(s, JsSpace) && SepFree(s)
    && '<' !in s && '>' !in s && forall k :: 0 <= k < |s| ==> !LineBreak(s[k])
  }

  ghost predicate Plain(r: Recipient) {
    PlainText(r.address) && (r.name.Some? ==> PlainText(r.name.value))
  }

  /** Two lists with a comma or a semicolon between them parse to the recipients of the
      first and then those of the second. */
  lemma SeparatorsPart(x: string, y: string, sep: string)
    requires sep == "," || sep == ";"
    ensures ParseRecipients(x + sep + y) == ParseRecipients(x) + ParseRecipients(y)
  {
    SplitParts(x, sep[0], y);
    assert x + sep + y == x + [sep[0]] + y;
    PiecesAppend(Split(x), Split(y));
    BlankParses(x);
    BlankParses(y);
  }

  lemma BlankPiece()
    ensures ParsePiece("") == [] && Split("") == [""] + []
  {
  }

  lemma NoPieces()
    ensures ParsePieces([""] + []) == []
  {
    BlankPiece();
    PiecesHead("", []);
  }

  lemma BlankParses(x: string)
    ensures ParseRecipients(x) == ParsePieces(Split(x))
  {
    if x == "" {
      BlankPiece();
      NoPieces();
    }
  }

  lemma {:induction false} SplitParts(x: string, c: char, y: string)
    requires Separator(c)
    ensures Split(x + [c] + y) == Split(x) + Split(y)
    decreases |x|
  {
    var s, k := x + [c] + y, FirstSep(x);
    FirstSepIn(x, c, y);
    SplitCut(s, k);
    PartsOf(x, c, y, k);
    if k == |x| {
      assert Split(x) == [x];
    } else {
      SplitParts(x[k + 1..], c, y);
      SplitCut(x, k);
      Associative([x[..k]], Split(x[k + 1..]), Split(y));
    }
  }

  lemma SplitCut(s: string, k: nat)
    requires FirstSep(s) == k < |s|
    ensures Split(s) == [s[..k]] + Split(s[k + 1..])
  {
    assert s[k + 1..] == s[FirstSep(s) + 1..];
  }

  lemma PartsOf(x: string, c: char, y: string, k: nat)
    requires k <= |x|
    ensures (x + [c] + y)[..k] == x[..k]
    ensures (x + [c] + y)[k + 1..] == if k == |x| then y else x[k + 1..] + [c] + y
    ensures x[..|x|] == x
  {
  }

  lemma FirstSepIn(x: string, c: char, y: string)
    requires Separator(c)
    ensures FirstSep(x + [c] + y) == FirstSep(x)
  {
    var s := x + [c] + y;
    var k, j := FirstSep(s), FirstSep(x);
    assert s[j] == if j < |x| then x[j] else c;
    assert forall i :: 0 <= i < j ==> s[i] == x[..j][i];
    assert forall i :: 0 <= i < k ==> s[i] == s[..k][i];
  }

  lemma HeadOf(a: seq<string>, b: seq<string>)
    requires a != []
    ensures a + b == [a[0]] + (a[1..] + b) && a == [a[0]] + a[1..]
  {
  }

  lemma {:induction false} PiecesAppend(a: seq<string>, b: seq<string>)
    ensures ParsePieces(a + b) == ParsePieces(a) + ParsePieces(b)
  {
    if a == [] {
      assert a + b == b;
    } else {
      PiecesAppend(a[1..], b);
      HeadOf(a, b);
      PiecesHead(a[0], a[1..] + b);
      PiecesHead(a[0], a[1..]);
      Associative(ParsePiece(a[0]), ParsePieces(a[1..]), ParsePieces(b));
    }
  }

  /** A text without a comma or a semicolon, with anything but blanks, is one recipient: a
      name and an address where it has that form, and else the address it is. */
  lemma OneRecipient(x: string)
    requires ',' !in x && ';' !in x
    ensures ParseRecipients(x) == if Trim(x) == "" then [] else [ParseToken(Trim(x))]
  {
    BlankParses(x);
    SplitAtComma(x, "");
    PiecesHead(x, []);
    assert [x] + [] == [x];
  }

  /** Printable ASCII text that begins and ends visibly, without separators or angle brackets. */
  predicate Printable(s: string) {
    VisibleEnds(s) && forall i :: 0 <= i < |s| ==> ' ' <= s[i] <= '~' && s[i] !in ",;<>"
  }

  lemma JsSpacesAre(c: char)
    ensures c in " \t\n\r" ==> JsSpace(c)
    ensures '!' <= c <= '~' ==> !JsSpace(c)
  {
  }

  lemma PrintableIsPlain(s: string)
    requires Printable(s)
    ensures PlainText(s)
  {
    JsSpacesAre(s[0]);
    JsSpacesAre(s[|s| - 1]);
  }

  lemma PaddingIsSpace(s: string)
    requires Padding(s)
    ensures SepFree(s) && forall i :: 0 <= i < |s| ==> JsSpace(s[i])
  {
    forall i | 0 <= i < |s|
      ensures JsSpace(s[i]) && !Separator(s[i])
    {
      JsSpacesAre(s[i]);
    }
  }

  /** A name and an address in angle brackets, with any blanks, tabs and line ends around and
      between them, or with none, are one recipient of that name and address. */
  lemma NamedParses(left: string, n: string, gap: string, a: string, right: string)
    requires Padding(left) && Padding(gap) && Padding(right) && Printable(n) && Printable(a)
    ensures ParseRecipients(left + (n + gap + "<" + a + ">") + right) == [Recipient(Some(n), a)]
  {
    var t := n + gap + "<" + a + ">";
    PrintableIsPlain(n);
    PrintableIsPlain(a);
    PaddingIsSpace(gap);
    GappedIs(n, gap, a);
    GappedSepFree(t, n, |gap|, a);
    GappedParses(t, n, |gap|, a);
    PaddedParses(left, t, right);
  }

  lemma PaddedParses(left: string, t: string, right: string)
    requires Padding(left) && Padding(right) && t != "" && Trimmed(t, JsSpace) && SepFree(t)
    ensures ParseRecipients(left + t + right) == [ParseToken(t)]
  {
    PaddingIsSpace(left);
    PaddingIsSpace(right);
    TrimPadded(left, t, right, JsSpace);
    ConcatSepFree(left, t, right);
    OneRecipient(left + t + right);
  }

  lemma ConcatSepFree(x: string, y: string, z: string)
    requires SepFree(x) && SepFree(y) && SepFree(z)
    ensures ',' !in x + y + z && ';' !in x + y + z
  {
    assert forall s: string :: SepFree(s) ==> forall i :: 0 <= i < |s| ==> s[i] != ',' && s[i] != ';';
  }

  /** `t` is the name, `gap` characters of white space, and the address in brackets. */
  ghost predicate Gapped(t: string, n: string, gap: nat, a: string) {
    && |t| == |n| + gap + |a| + 2
    && t[..|n|] == n && t[|n| + gap + 1..|t| - 1] == a
    && (forall k :: |n| <= k < |n| + gap ==> JsSpace(t[k]))
    && t[|n| + gap] == '<' && t[|t| - 1] == '>'
  }

  lemma GappedIs(n: string, gap: string, a: string)
    requires forall i :: 0 <= i < |gap| ==> JsSpace(gap[i])
    ensures Gapped(n + gap + "<" + a + ">", n, |gap|, a)
  {
  }

  lemma GappedSepFree(t: string, n: string, gap: nat, a: string)
    requires Gapped(t, n, gap, a) && PlainText(n) && PlainText(a)
    ensures SepFree(t) && Trimmed(t, JsSpace)
  {
    forall k | 0 <= k < |t|
      ensures !Separator(t[k])
    {
      if k < |n| {
        assert t[k] == n[k];
      } else if |n| + gap < k < |t| - 1 {
        assert t[k] == a[k - |n| - gap - 1];
      }
    }
    assert t[0] == n[0];
  }

  lemma GappedMatch(t: string, n: string, gap: nat, a: string)
    requires Gapped(t, n, gap, a) && PlainText(n) && PlainText(a)
    ensures SpaceEnd(t, |n|) == |n| + gap && MatchAt(t, |n|)
  {
    forall k | |n| + gap < k < |t| - 1
      ensures t[k] != '>'
    {
      assert t[k] == a[k - |n| - gap - 1];
    }
    forall k | 0 <= k < |n|
      ensures !LineBreak(t[k])
    {
      assert t[k] == n[k];
    }
  }

  /** No match starts inside a name without a <. */
  lemma NoMatchInside(t: string, n: string, gap: nat, a: string, i: nat)
    requires Gapped(t, n, gap, a) && PlainText(n) && i < |n|
    ensures !MatchAt(t, i)
  {
    assert t[|n| - 1] == n[|n| - 1];
    var p := SpaceEnd(t, i);
    assert p < |n| && t[p] == n[p];
  }

  lemma GappedFirst(t: string, n: string, gap: nat, a: string)
    requires Gapped(t, n, gap, a) && PlainText(n) && PlainText(a)
    ensures FirstMatch(t, 0) == Some(|n|) && SpaceEnd(t, |n|) == |n| + gap
  {
    GappedMatch(t, n, gap, a);
    forall i | 0 <= i < |n|
      ensures !MatchAt(t, i)
    {
      NoMatchInside(t, n, gap, a, i);
    }
  }

  lemma GappedParses(t: string, n: string, gap: nat, a: string)
    requires Gapped(t, n, gap, a) && PlainText(n) && PlainText(a)
    ensures ParseToken(t) == Recipient(Some(n), a)
  {
    GappedFirst(t, n, gap, a);
    TrimmedParts(t, n, gap, a);
    var p := |n| + gap;
    assert FirstMatch(t, 0) == Some(|n|);
    assert SpaceEnd(t, |n|) == p;
    assert Trim(t[..|n|]) == n;
    assert Trim(t[p + 1..|t| - 1]) == a;
    ParseIs(t, |n|, p, n, a);
  }

  lemma ParseIs(t: string, i: nat, p: nat, n: string, a: string)
    requires FirstMatch(t, 0) == Some(i) && SpaceEnd(t, i) == p && i <= p < |t| - 1
    requires Trim(t[..i]) == n && Trim(t[p + 1..|t| - 1]) == a
    ensures ParseToken(t) == Recipient(Some(n), a)
  {
  }

  lemma TrimmedParts(t: string, n: string, gap: nat, a: string)
    requires Gapped(t, n, gap, a) && PlainText(n) && PlainText(a)
    ensures Trim(t[..|n|]) == n && Trim(t[|n| + gap + 1..|t| - 1]) == a
  {
    TrimTrimmed(n, JsSpace);
    TrimTrimmed(a, JsSpace);
  }

  /** A display name with a semicolon or a line end does not survive either. */
  lemma BadNameIsLost(n: string, a: string)
    requires ';' in n || '\n' in n || '\r' in n
    ensures ParseRecipients(PrintRecipients([Recipient(Some(n), a)])) != [Recipient(Some(n), a)]
  {
    var rs := [Recipient(Some(n), a)];
    ParseUndoesPrint(rs);
    assert Faithful(rs[0]) ==> ';' !in n && '\n' !in n && '\r' !in n;
  }

  /** A display name with a comma, as directories write it, does not survive. */
  lemma CommaInNameIsLost(n: string, a: string)
    requires ',' in n
    ensures ParseRecipients(PrintRecipients([Recipient(Some(n), a)])) != [Recipient(Some(n), a)]
  {
    var rs := [Recipient(Some(n), a)];
    ParseUndoesPrint(rs);
    assert !SepFree(n);
    assert !Faithful(rs[0]);
  }
}
