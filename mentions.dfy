/** `extract_mentions`: the message text with every inline user mention
    `<@123>` / `<@!123>` removed (Python's `re.sub(r"<@!?\d+>", "", ...)`)
    and then `strip()`ped, and the mentioned users' names as `@name`
    joined with commas. */
module Mentions {
  import opened Chars

  /** A Discord message as far as the extractor sees it: its raw text and
      the names of the users in its mention list, in that list's order. */
  datatype Message = Message(content: string, mentionNames: seq<string>)

  datatype Extracted = Extracted(text: string, ats: string)

  // ---------------------------------------------------------------------
  // The mention token `<@!?\d+>`
  // ---------------------------------------------------------------------

  /** The strings the pattern `<@!?\d+>` matches, as a set. */
  predicate IsToken(t: string) {
    && |t| >= 4
    && t[0] == '<' && t[1] == '@' && t[|t| - 1] == '>'
    && (AllDigits(t[2..|t| - 1]) || (t[2] == '!' && AllDigits(t[3..|t| - 1])))
  }

  /** No match of the pattern starts at the front of `s`. */
  predicate NoTokenAt(s: string) {
    forall k :: 0 < k <= |s| ==> !IsToken(s[..k])
  }

  /** Length of the run of digits at the front of `s` (the greedy `\d+`). */
  function DigitRun(s: string): (n: nat)
    ensures n <= |s|
    ensures forall i :: 0 <= i < n ==> IsDigit(s[i])
    ensures n < |s| ==> !IsDigit(s[n])
    decreases |s|
  {
    if s != [] && IsDigit(s[0]) then 1 + DigitRun(s[1..]) else 0
  }

  /** Length of the match of `<@!?\d+>` at the front of `s`, 0 when there is none. */
  function TokenLen(s: string): (n: nat)
    ensures n <= |s|
    ensures n > 0 ==> 4 <= n && s[0] == '<' && s[1] == '@' && s[n - 1] == '>'
  {
    if |s| >= 2 && s[0] == '<' && s[1] == '@' then
      var k := if |s| > 2 && s[2] == '!' then 3 else 2;
      var d := DigitRun(s[k..]);
      if d > 0 && k + d < |s| && s[k + d] == '>' then k + d + 1 else 0
    else 0
  }

  /** The scanner finds a match at the front exactly when the pattern has
      one there, and then it is the only one: `TokenLen` is the regex match. */
  lemma TokenLenIsMatch(s: string)
    ensures TokenLen(s) > 0 ==> IsToken(s[..TokenLen(s)])
    ensures forall k :: 0 < k <= |s| && IsToken(s[..k]) ==> k == TokenLen(s)
    ensures TokenLen(s) == 0 <==> NoTokenAt(s)
  {
    var n := TokenLen(s);
    if n > 0 {
      var k := if |s| > 2 && s[2] == '!' then 3 else 2;
      var t := s[..n];
      assert t[k..n - 1] == s[k..][..n - 1 - k];
      var body := t[k..n - 1];
      assert AllDigits(body) by {
        forall i | 0 <= i < |body| ensures IsDigit(body[i]) {
          assert body[i] == s[k..][i];
        }
      }
      if k == 2 {
        assert IsToken(t);
      } else {
        assert t[3..n - 1] == s[3..n - 1];
        assert IsToken(t);
      }
    }
    forall m | 0 < m <= |s| && IsToken(s[..m])
      ensures m == n
    {
      TokenPrefixLen(s, m);
    }
  }

  /** Any match at the front of `s` has the length `TokenLen` computes. */
  lemma TokenPrefixLen(s: string, m: nat)
    requires 0 < m <= |s| && IsToken(s[..m])
    ensures m == TokenLen(s)
  {
    var t := s[..m];
    assert s[0] == t[0] && s[1] == t[1] && s[m - 1] == '>';
    var k := if |s| > 2 && s[2] == '!' then 3 else 2;
    if k == 3 {
      assert !AllDigits(t[2..m - 1]) by { assert t[2..m - 1][0] == '!'; }
    } else {
      assert !(t[2] == '!');
    }
    assert AllDigits(t[k..m - 1]);
    var u := s[k..];
    var d := DigitRun(u);
    forall i | 0 <= i < m - 1 - k ensures IsDigit(u[i]) {
      assert u[i] == t[k..m - 1][i];
    }
    assert u[m - 1 - k] == '>';
    assert d == m - 1 - k;
  }

  // ---------------------------------------------------------------------
  // `re.sub` as a left-to-right scan
  // ---------------------------------------------------------------------

  /** One step of the scan: a character copied through, or a match removed. */
  datatype Piece = Kept(c: char) | Removed(token: string)

  function PieceText(p: Piece): string {
    match p
    case Kept(c) => [c]
    case Removed(t) => t
  }

  /** The text a sequence of pieces spells. */
  function Spelled(ps: seq<Piece>): string
    decreases |ps|
  {
    if ps == [] then [] else PieceText(ps[0]) + Spelled(ps[1..])
  }

  /** What `re.sub(..., "", ...)` leaves: the kept characters, in order. */
  function KeptText(ps: seq<Piece>): (r: string)
    ensures |r| <= |Spelled(ps)|
    decreases |ps|
  {
    if ps == [] then []
    else if ps[0].Kept? then [ps[0].c] + KeptText(ps[1..])
    else KeptText(ps[1..])
  }

  /** A decomposition `re.sub` would make: each removed piece is a match, and a
      character is kept only where no match starts (matches are taken at the
      leftmost position and scanning resumes after each one). */
  ghost predicate Leftmost(ps: seq<Piece>)
    decreases |ps|
  {
    ps == [] ||
    (&& (match ps[0]
         case Removed(t) => IsToken(t)
         case Kept(_) => NoTokenAt(Spelled(ps)))
     && Leftmost(ps[1..]))
  }

  /** The scan `re.sub` performs over the message text. */
  function Scan(s: string): (ps: seq<Piece>)
    ensures Spelled(ps) == s
    ensures Leftmost(ps)
    decreases |s|
  {
    if s == [] then []
    else
      var n := TokenLen(s);
      TokenLenIsMatch(s);
      if n > 0 then
        assert s == s[..n] + s[n..];
        [Removed(s[..n])] + Scan(s[n..])
      else
        assert s == [s[0]] + s[1..];
        [Kept(s[0])] + Scan(s[1..])
  }

  /** There is only one leftmost decomposition of a text: the scan's. */
  lemma {:induction false} ScanUnique(ps: seq<Piece>, s: string)
    requires Spelled(ps) == s && Leftmost(ps)
    ensures ps == Scan(s)
    decreases |ps|
  {
    if ps != [] {
      var rest := Spelled(ps[1..]);
      TokenLenIsMatch(s);
      match ps[0]
      case Removed(t) =>
        assert s[..|t|] == t && s[|t|..] == rest;
        ScanUnique(ps[1..], rest);
      case Kept(c) =>
        assert s[1..] == rest;
        ScanUnique(ps[1..], rest);
    }
  }

  /** `re.sub(r"<@!?\d+>", "", s)`. */
  function RemoveTokens(s: string): (r: string)
    ensures |r| <= |s|
  {
    KeptText(Scan(s))
  }

  /** Text holding no `<` passes through the substitution unchanged,
      whatever follows it. */
  lemma {:induction false} RemoveTokensKeepsPlain(a: string, b: string)
    requires '<' !in a
    ensures RemoveTokens(a + b) == a + RemoveTokens(b)
    decreases |a|
  {
    if a != [] {
      var s := a + b;
      assert s[0] == a[0] && s[1..] == a[1..] + b;
      assert NoTokenAt(s) by {
        forall k | 0 < k <= |s| ensures !IsToken(s[..k]) { assert s[..k][0] == a[0]; }
      }
      assert '<' !in a[1..];
      calc {
        RemoveTokens(s);
        { RemoveTokensKeepsChar(s); }
        [a[0]] + RemoveTokens(a[1..] + b);
        { RemoveTokensKeepsPlain(a[1..], b); }
        [a[0]] + (a[1..] + RemoveTokens(b));
        { assert [a[0]] + a[1..] == a; }
        a + RemoveTokens(b);
      }
    } else {
      assert a + b == b && a + RemoveTokens(b) == RemoveTokens(b);
    }
  }

  /** Where no mention starts, the first character is copied and the scan moves on by one. */
  lemma RemoveTokensKeepsChar(s: string)
    requires s != [] && NoTokenAt(s)
    ensures RemoveTokens(s) == [s[0]] + RemoveTokens(s[1..])
  {
    TokenLenIsMatch(s);
    assert Scan(s) == [Kept(s[0])] + Scan(s[1..]);
  }

  /** A mention at the front is dropped and the scan resumes right after it. */
  lemma RemoveTokensDropsToken(t: string, b: string)
    requires IsToken(t)
    ensures RemoveTokens(t + b) == RemoveTokens(b)
  {
    var s := t + b;
    assert s[..|t|] == t;
    TokenLenIsMatch(s);
    assert s[|t|..] == b;
  }

  // ---------------------------------------------------------------------
  // `str.strip()`
  // ---------------------------------------------------------------------

  /** Scanning forward from `i`: the first index that is not whitespace. */
  function SkipSpaceForward(s: string, i: nat): (k: nat)
    requires i <= |s|
    ensures i <= k <= |s|
    ensures forall n :: i <= n < k ==> IsSpace(s[n])
    ensures k < |s| ==> !IsSpace(s[k])
    decreases |s| - i
  {
    if i < |s| && IsSpace(s[i]) then SkipSpaceForward(s, i + 1) else i
  }

  /** Scanning back from `e` but not below `lo`: the end of the last non-whitespace character. */
  function SkipSpaceBackward(s: string, lo: nat, e: nat): (k: nat)
    requires lo <= e <= |s|
    ensures lo <= k <= e
    ensures forall n :: k <= n < e ==> IsSpace(s[n])
    ensures k > lo ==> !IsSpace(s[k - 1])
    decreases e
  {
    if e > lo && IsSpace(s[e - 1]) then SkipSpaceBackward(s, lo, e - 1) else e
  }

  /** Neither end of `s` is whitespace. */
  predicate Trimmed(s: string) {
    s == [] || (!IsSpace(s[0]) && !IsSpace(s[|s| - 1]))
  }

  /** Where `strip()` cuts: it keeps `s[lo..hi]`, dropping only
      whitespace before `lo` and after `hi`, and what it keeps is trimmed. */
  function StripBounds(s: string): (b: (nat, nat))
    ensures b.0 <= b.1 <= |s|
    ensures forall n :: 0 <= n < b.0 ==> IsSpace(s[n])
    ensures forall n :: b.1 <= n < |s| ==> IsSpace(s[n])
    ensures Trimmed(s[b.0..b.1])
  {
    var lo := SkipSpaceForward(s, 0);
    (lo, SkipSpaceBackward(s, lo, |s|))
  }

  /** `strip()`. */
  function Strip(s: string): (r: string)
    ensures |r| <= |s|
    ensures Trimmed(r)
  {
    var b := StripBounds(s);
    s[b.0..b.1]
  }

  /** Text with no whitespace at either end is its own strip. */
  lemma StripKeepsTrimmed(s: string)
    requires Trimmed(s)
    ensures Strip(s) == s
  {
    assert SkipSpaceForward(s, 0) == 0;
    assert s != [] ==> SkipSpaceBackward(s, 0, |s|) == |s|;
  }

  /** Stripping twice is stripping once. */
  lemma StripIdempotent(s: string)
    ensures Strip(Strip(s)) == Strip(s)
  {
    StripKeepsTrimmed(Strip(s));
  }

  // ---------------------------------------------------------------------
  // The mentions column
  // ---------------------------------------------------------------------

  /** `",".join(f"@{n}" for n in names)`. */
  function MentionsField(names: seq<string>): (r: string)
    ensures r == "" <==> names == []
    decreases |names|
  {
    if names == [] then ""
    else if |names| == 1 then "@" + names[0]
    else "@" + names[0] + "," + MentionsField(names[1..])
  }

  /** Python's `s.split(",")`. */
  function SplitCommas(s: string): (parts: seq<string>)
    ensures |parts| >= 1
    decreases |s|
  {
    if s == [] then [""]
    else
      var rest := SplitCommas(s[1..]);
      if s[0] == ',' then [""] + rest else [[s[0]] + rest[0]] + rest[1..]
  }

  lemma {:induction false} SplitCommasNoComma(a: string, b: string)
    requires ',' !in a
    ensures SplitCommas(a + b) == [a + SplitCommas(b)[0]] + SplitCommas(b)[1..]
    decreases |a|
  {
    var x := SplitCommas(b);
    if a == [] {
      assert a + b == b && a + x[0] == x[0];
      assert [x[0]] + x[1..] == x;
    } else {
      assert (a + b)[1..] == a[1..] + b;
      assert ',' !in a[1..];
      SplitCommasNoComma(a[1..], b);
      var rest := SplitCommas(a[1..] + b);
      assert rest[0] == a[1..] + x[0] && rest[1..] == x[1..];
      assert [a[0]] + (a[1..] + x[0]) == a + x[0];
    }
  }

  function AtNames(names: seq<string>): seq<string> {
    seq(|names|, i requires 0 <= i < |names| => "@" + names[i])
  }

  /** When no name holds a comma, splitting the mentions column on commas
      gives back the `@`-prefixed names in mention-list order. */
  lemma {:induction false} MentionsFieldSplits(names: seq<string>)
    requires names != []
    requires forall i :: 0 <= i < |names| ==> ',' !in names[i]
    ensures SplitCommas(MentionsField(names)) == AtNames(names)
    decreases |names|
  {
    var head := "@" + names[0];
    assert ',' !in head;
    if |names| == 1 {
      SplitCommasNoComma(head, "");
      assert head + "" == head;
    } else {
      var tail := MentionsField(names[1..]);
      MentionsFieldSplits(names[1..]);
      assert head + "," + tail == head + ([','] + tail);
      SplitCommasNoComma(head, [','] + tail);
      assert ([','] + tail)[1..] == tail;
      assert SplitCommas([','] + tail) == [""] + SplitCommas(tail);
      assert head + "" == head;
      assert AtNames(names) == [head] + AtNames(names[1..]);
    }
  }

  // ---------------------------------------------------------------------
  // `extract_mentions`
  // ---------------------------------------------------------------------

  /** The message column: mentions removed, then both ends stripped. */
  function TextField(content: string): (r: string)
    ensures |r| <= |content|
    ensures Trimmed(r)
  {
    Strip(RemoveTokens(content))
  }

  /** `extract_mentions(msg)`: the mentions column depends only on the
      mention list, the text column only on the content. */
  function ExtractMentions(m: Message): (r: Extracted)
    ensures |r.text| <= |m.content| && Trimmed(r.text)
    ensures r.ats == "" <==> m.mentionNames == []
  {
    Extracted(TextField(m.content), MentionsField(m.mentionNames))
  }

  /** The two columns are computed independently: the mentions column never
      looks at the text (so a mention typed in the text but absent from the
      mention list adds no `@name`), and the text column never looks at the
      mention list. */
  lemma ColumnsIndependent(m1: Message, m2: Message)
    ensures m1.mentionNames == m2.mentionNames ==> ExtractMentions(m1).ats == ExtractMentions(m2).ats
    ensures m1.content == m2.content ==> ExtractMentions(m1).text == ExtractMentions(m2).text
  {
  }

  /** Only the ends are trimmed: a mention between two words leaves the
      space on each side of it, so `"hello <@123> world"` with mention list
      `["alice"]` gives `("hello  world", "@alice")`. */
  lemma InnerSpacesKept(before: string, token: string, after: string, name: string)
    requires IsToken(token)
    requires '<' !in before && '<' !in after
    requires before != [] && !IsSpace(before[0])
    requires after != [] && !IsSpace(after[|after| - 1])
    ensures ExtractMentions(Message(before + " " + token + " " + after, [name]))
         == Extracted(before + "  " + after, "@" + name)
  {
    var kept := before + "  " + after;
    calc {
      RemoveTokens(before + " " + token + " " + after);
      { assert before + " " + token + " " + after == (before + " ") + (token + (" " + after)); }
      RemoveTokens((before + " ") + (token + (" " + after)));
      { RemoveTokensKeepsPlain(before + " ", token + (" " + after)); }
      (before + " ") + RemoveTokens(token + (" " + after));
      { RemoveTokensDropsToken(token, " " + after); }
      (before + " ") + RemoveTokens(" " + after);
      { RemoveTokensKeepsPlain(" " + after, []); assert (" " + after) + [] == " " + after; }
      (before + " ") + ((" " + after) + RemoveTokens([]));
      { assert RemoveTokens([]) == []; }
      kept;
    }
    assert kept[0] == before[0] && kept[|kept| - 1] == after[|after| - 1];
    StripKeepsTrimmed(kept);
  }

  /** The substitution is a single pass: a mention that the removal creates survives. */
  lemma ExampleSinglePass()
    ensures RemoveTokens("<@<@1>1>") == "<@1>"
  {
    var token := "<@1>";
    assert IsToken(token) by { assert token[2..3] == "1"; }
    var s := "<@<@1>1>";
    assert s[0] == '<' && s[1..] == "@" + (token + "1>");
    assert NoTokenAt(s) by { TokenLenIsMatch(s); assert DigitRun(s[2..]) == 0; }
    calc {
      RemoveTokens(s);
      { RemoveTokensKeepsChar(s); }
      "<" + RemoveTokens("@" + (token + "1>"));
      { RemoveTokensKeepsPlain("@", token + "1>"); }
      "<" + ("@" + RemoveTokens(token + "1>"));
      { RemoveTokensDropsToken(token, "1>"); }
      "<" + ("@" + RemoveTokens("1>"));
      { RemoveTokensKeepsPlain("1>", ""); assert "1>" + "" == "1>"; }
      "<" + ("@" + ("1>" + RemoveTokens("")));
      "<@1>";
    }
  }
}
