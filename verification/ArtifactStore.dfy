/** The artifact file: how it is laid out, how it is read back, and what a write
    followed by a read does to the body and to its hash. */
module ArtifactStore {
  import opened Wrappers
  import opened ArtifactText

  datatype ReadError = MissingOpening | MissingClosing
  datatype Parts = Parts(frontmatter: string, body: string)

  /** Text-mode reading: CR LF and a bare CR both arrive as LF. */
  function Universal(s: string): string {
    if s == "" then ""
    else if s[0] != '\r' then [s[0]] + Universal(s[1..])
    else if |s| > 1 && s[1] == '\n' then "\n" + Universal(s[2..])
    else "\n" + Universal(s[1..])
  }

  function LStripBreaks(s: string): string {
    if s != "" && s[0] == '\n' then LStripBreaks(s[1..]) else s
  }

  function RStripBreaks(s: string): string {
    if s != "" && s[|s| - 1] == '\n' then RStripBreaks(s[..|s| - 1]) else s
  }

  /** `str.find(pattern, start)`. */
  function Find(s: string, pattern: string, start: nat): (r: Option<nat>)
    ensures r.Some? ==>
              && start <= r.value && r.value + |pattern| <= |s|
              && pattern <= s[r.value..]
              && forall i :: start <= i < r.value ==> !(pattern <= s[i..])
    ensures r.None? ==> forall i :: start <= i <= |s| ==> !(pattern <= s[i..])
    decreases |s| - start
  {
    if start > |s| then None
    else if pattern <= s[start..] then Some(start)
    else Find(s, pattern, start + 1)
  }

  function Compose(frontmatter: string, body: string): string {
    "---\n" + frontmatter + "---\n\n" + body
  }

  /** Parses the bytes on disk, read in text mode. */
  function ReadBack(disk: string): Result<Parts, ReadError> {
    var text := Universal(disk);
    if !("---" <= text) then Failure(MissingOpening)
    else
      match Find(text, "\n---", 3)
      case None => Failure(MissingClosing)
      case Some(end) => Success(Parts(text[3..end], LStripBreaks(text[end + 4..])))
  }

  /** The body a reader gets after `body` was written. */
  function Reread(body: string): string {
    LStripBreaks(Universal(body))
  }

  /** What a YAML dump of the frontmatter satisfies: it ends in a line break,
      holds no carriage return, and no line of it begins with the delimiter. */
  predicate Delimitable(frontmatter: string) {
    && frontmatter != "" && frontmatter[|frontmatter| - 1] == '\n'
    && '\r' !in frontmatter
    && !("---" <= frontmatter)
    && forall i :: 0 <= i <= |frontmatter| ==> !("\n---" <= frontmatter[i..])
  }

  // ---- Text-mode reading --------------------------------------------------

  lemma {:induction false} UniversalPlain(s: string, rest: string)
    requires '\r' !in s
    ensures Universal(s + rest) == s + Universal(rest)
  {
    if s == "" {
      assert s + rest == rest;
    } else {
      assert (s + rest)[1..] == s[1..] + rest;
      UniversalPlain(s[1..], rest);
    }
  }

  lemma UniversalFixes(s: string)
    requires '\r' !in s
    ensures Universal(s) == s
  {
    UniversalPlain(s, "");
    assert s + "" == s;
  }

  lemma {:induction false} UniversalHasNoReturn(s: string)
    ensures '\r' !in Universal(s)
  {
    if s == "" {
    } else if s[0] == '\r' && |s| > 1 && s[1] == '\n' {
      UniversalHasNoReturn(s[2..]);
    } else {
      UniversalHasNoReturn(s[1..]);
    }
  }

  lemma LStripBreaksSuffix(s: string)
    ensures forall c :: c in LStripBreaks(s) ==> c in s
    ensures LStripBreaks(s) != "" ==> LStripBreaks(s)[0] != '\n'
    ensures |LStripBreaks(s)| <= |s|
    ensures |LStripBreaks(s)| == |s| ==> LStripBreaks(s) == s
  {
  }

  /** A body comes back as it was written exactly when it holds no carriage
      return and does not begin with a line break. */
  lemma RereadUnchangedIff(body: string)
    ensures Reread(body) == body <==> '\r' !in body && (body != "" ==> body[0] != '\n')
  {
    UniversalHasNoReturn(body);
    LStripBreaksSuffix(Universal(body));
    if '\r' !in body {
      UniversalFixes(body);
    }
  }

  lemma RereadIdempotent(body: string)
    ensures Reread(Reread(body)) == Reread(body)
  {
    UniversalHasNoReturn(body);
    LStripBreaksSuffix(Universal(body));
    RereadUnchangedIff(Reread(body));
  }

  /** Reading undoes writing, up to `Reread` on the body: the delimiters are
      found where they were put, whatever the body holds. */
  lemma ReadAfterWrite(frontmatter: string, body: string)
    requires Delimitable(frontmatter)
    ensures ReadBack(Compose(frontmatter, body))
         == Success(Parts("\n" + frontmatter[..|frontmatter| - 1], Reread(body)))
  {
    var head := "---\n" + frontmatter + "---\n\n";
    UniversalPlain(head, body);
    assert Compose(frontmatter, body) == head + body;
    FindsClosing(frontmatter, Universal(body));
    Slices(frontmatter, Universal(body));
  }

  lemma Slices(fm: string, rest: string)
    requires Delimitable(fm)
    ensures var text := "---\n" + fm + "---\n\n" + rest;
            && "---" <= text
            && text[3..|fm| + 3] == "\n" + fm[..|fm| - 1]
            && LStripBreaks(text[|fm| + 7..]) == LStripBreaks(rest)
  {
    var text := "---\n" + fm + "---\n\n" + rest;
    assert text[..3] == "---";
    assert text[|fm| + 7..] == "\n\n" + rest;
    assert ("\n\n" + rest)[1..] == "\n" + rest;
    assert ("\n" + rest)[1..] == rest;
  }

  lemma FindsClosing(fm: string, rest: string)
    requires Delimitable(fm)
    ensures Find("---\n" + fm + "---\n\n" + rest, "\n---", 3) == Some(|fm| + 3)
  {
    var text := "---\n" + fm + "---\n\n" + rest;
    var end := |fm| + 3;
    assert text[end..][..4] == "\n---";
    forall i | 3 <= i < end
      ensures !("\n---" <= text[i..])
    {
      NoEarlierDelimiter(fm, rest, i);
    }
  }

  lemma NoEarlierDelimiter(fm: string, rest: string, i: nat)
    requires Delimitable(fm)
    requires 3 <= i < |fm| + 3
    ensures !("\n---" <= ("---\n" + fm + "---\n\n" + rest)[i..])
  {
    var text := "---\n" + fm + "---\n\n" + rest;
    var end := |fm| + 3;
    assert text[end] == '\n';
    if end <= i + 3 {
      assert text[i..][end - i] == '\n';
      assert "\n---"[end - i] == '-';
    } else if i == 3 {
      assert text[i..][1..4] == fm[..3] != "---" == "\n---"[1..4];
    } else {
      assert text[i..][..4] == fm[i - 4..][..4];
    }
  }

  // ---- When the hash survives a write and a read --------------------------

  /** The character at `i` is no bare carriage return, or only whitespace follows. */
  predicate ReturnOk(s: string, i: nat)
    requires i < |s|
  {
    s[i] == '\r' ==> (i + 1 < |s| && s[i + 1] == '\n') || Blank(s[i..])
  }

  /** Every carriage return that is not half of a CR LF pair lies in the
      whitespace at the very end of the text. */
  predicate BareReturnsOnlyInTail(s: string) {
    forall i :: 0 <= i < |s| ==> ReturnOk(s, i)
  }

  /** Nothing but whitespace other than carriage returns up to the first
      non-blank character. */
  predicate LeadingBlanksHoldNoReturn(s: string) {
    s == "" || (s[0] != '\r' && (IsSpace(s[0]) ==> LeadingBlanksHoldNoReturn(s[1..])))
  }

  /** How many characters the blank lines before the first line with text take. */
  function BlankLead(s: string): (k: nat)
    ensures k <= |s|
    ensures forall i :: 0 <= i < k ==> IsSpace(s[i])
    ensures k > 0 ==> s[k - 1] == '\n'
    ensures s != "" && s[0] == '\n' ==> k > 0
  {
    if s == "" || !IsSpace(s[0]) then 0
    else
      var k := BlankLead(s[1..]);
      if k > 0 || s[0] == '\n' then k + 1 else 0
  }

  function BareReturns(s: string): nat {
    if s == "" then 0
    else (if s[0] == '\r' && !(|s| > 1 && s[1] == '\n') then 1 else 0) + BareReturns(s[1..])
  }

  /** The number of line breaks at the very start. */
  function StartBreaks(s: string): nat {
    if s != "" && s[0] == '\n' then 1 + StartBreaks(s[1..]) else 0
  }

  /** From the first line with text on, bare carriage returns stand only in the
      final whitespace; and in the blank lines before it they are as many, each
      read as one more line, as the line breaks a reader strips from the start. */
  predicate SurvivesReading(body: string) {
    var k := BlankLead(body);
    && BareReturnsOnlyInTail(body[k..])
    && BareReturns(body[..k]) == StartBreaks(Universal(body[..k]))
  }

  function LineBreaks(s: string): nat {
    if s == "" then 0 else (if s[0] == '\n' then 1 else 0) + LineBreaks(s[1..])
  }

  lemma {:induction false} TrimmedEmptyIff(s: string)
    ensures Trimmed(s) == "" <==> Blank(s)
    ensures Trimmed(s) != "" ==> Trimmed(s)[0] == '\n' || s[0] == Trimmed(s)[0] || IsSpace(s[0])
  {
    if s != "" {
      TrimmedEmptyIff(s[1..]);
      BlankHead(s);
    }
  }

  lemma BlankHead(s: string)
    requires s != ""
    ensures Blank(s) <==> IsSpace(s[0]) && Blank(s[1..])
  {
    assert forall i :: 0 < i < |s| ==> s[i] == s[1..][i - 1];
    if IsSpace(s[0]) && Blank(s[1..]) {
      forall i | 0 <= i < |s| ensures IsSpace(s[i]) {
        assert i > 0 ==> IsSpace(s[1..][i - 1]);
      }
    }
    if Blank(s) {
      forall i | 0 <= i < |s[1..]| ensures IsSpace(s[1..][i]) {
        assert IsSpace(s[i + 1]);
      }
    }
  }

  lemma {:induction false} BlankUniversal(s: string)
    ensures Blank(s) <==> Blank(Universal(s))
  {
    if s == "" {
    } else if s[0] == '\r' && |s| > 1 && s[1] == '\n' {
      BlankUniversal(s[2..]);
      BlankHead(s);
      BlankHead(s[1..]);
      assert s[1..][1..] == s[2..];
      BlankHead(Universal(s));
    } else {
      BlankUniversal(s[1..]);
      BlankHead(s);
      BlankHead(Universal(s));
    }
  }

  lemma BareReturnsHead(s: string)
    requires s != ""
    ensures BareReturnsOnlyInTail(s) <==> ReturnOk(s, 0) && BareReturnsOnlyInTail(s[1..])
  {
    forall i | 0 <= i < |s[1..]|
      ensures ReturnOk(s[1..], i) == ReturnOk(s, i + 1)
    {
      assert s[1..][i..] == s[i + 1..];
    }
    if ReturnOk(s, 0) && BareReturnsOnlyInTail(s[1..]) {
      forall i | 0 <= i < |s|
        ensures ReturnOk(s, i)
      {
        if i > 0 {
          assert ReturnOk(s[1..], i - 1);
        }
      }
    }
    if BareReturnsOnlyInTail(s) {
      forall i | 0 <= i < |s[1..]|
        ensures ReturnOk(s[1..], i)
      {
        assert ReturnOk(s, i + 1);
      }
    }
  }

  /** Splitting at bare returns never loses a line of the normal form. */
  lemma {:induction false} UniversalKeepsBreaks(s: string)
    ensures LineBreaks(Trimmed(Universal(s))) >= LineBreaks(Trimmed(s))
  {
    if s == "" {
    } else if s[0] == '\r' && |s| > 1 && s[1] == '\n' {
      UniversalKeepsBreaks(s[2..]);
      BlankUniversal(s[2..]);
      TrimmedEmptyIff(s[2..]);
      TrimmedEmptyIff(Universal(s[2..]));
      ReturnBreakTrims(s);
    } else {
      UniversalKeepsBreaks(s[1..]);
      BlankUniversal(s[1..]);
      TrimmedEmptyIff(s[1..]);
      TrimmedEmptyIff(Universal(s[1..]));
    }
  }

  lemma ReturnBreakTrims(s: string)
    requires |s| > 1 && s[0] == '\r' && s[1] == '\n'
    ensures Trimmed(s) == Before('\n', Trimmed(s[2..]))
  {
    assert s[1..][1..] == s[2..];
    assert Trimmed(s[1..]) == Before('\n', Trimmed(s[2..]));
  }

  lemma BeforeInjective(c: char, a: string, b: string)
    requires a == "" <==> b == ""
    ensures Before(c, a) == Before(c, b) <==> a == b
  {
    assert ([c] + a)[1..] == a && ([c] + b)[1..] == b;
  }

  lemma {:induction false} UniversalTrimmedIff(s: string)
    ensures Trimmed(Universal(s)) == Trimmed(s) <==> BareReturnsOnlyInTail(s)
  {
    if s != "" {
      BareReturnsHead(s);
      assert s[0..] == s;
      TrimmedEmptyIff(s[1..]);
      TrimmedEmptyIff(Universal(s[1..]));
      BlankUniversal(s[1..]);
      BlankHead(s);
      if s[0] != '\r' {
        UniversalTrimmedIff(s[1..]);
        BeforeInjective(s[0], Trimmed(Universal(s[1..])), Trimmed(s[1..]));
      } else if |s| > 1 && s[1] == '\n' {
        UniversalTrimmedIff(s[2..]);
        BeforeInjective('\n', Trimmed(Universal(s[2..])), Trimmed(s[2..]));
        BareReturnsHead(s[1..]);
        assert s[1..][1..] == s[2..];
        ReturnBreakTrims(s);
        TrimmedEmptyIff(s[2..]);
        TrimmedEmptyIff(Universal(s[2..]));
        BlankUniversal(s[2..]);
      } else {
        UniversalKeepsBreaks(s[1..]);
        BareReturnTrims(s);
      }
    }
  }

  lemma BareReturnTrims(s: string)
    requires s != "" && s[0] == '\r' && !(|s| > 1 && s[1] == '\n')
    requires LineBreaks(Trimmed(Universal(s[1..]))) >= LineBreaks(Trimmed(s[1..]))
    ensures Trimmed(Universal(s)) == Trimmed(s) <==> Blank(s)
    ensures Blank(s) ==> BareReturnsOnlyInTail(s[1..])
  {
    var rest := Trimmed(s[1..]);
    TrimmedEmptyIff(s);
    TrimmedEmptyIff(s[1..]);
    TrimmedEmptyIff(Universal(s[1..]));
    BlankUniversal(s[1..]);
    BlankHead(s);
    BlankUniversal(s);
    TrimmedEmptyIff(Universal(s));
    if Blank(s) {
      forall i | 0 <= i < |s[1..]| ensures ReturnOk(s[1..], i) {
        assert forall k :: 0 <= k < |s[1..][i..]| ==> s[1..][i..][k] == s[1 + i + k];
      }
    } else {
      var u := Trimmed(Universal(s));
      assert u == "\n" + Trimmed(Universal(s[1..]));
      assert u[1..] == Trimmed(Universal(s[1..]));
      assert LineBreaks(u) > LineBreaks(rest);
    }
  }

  lemma {:induction false} BlankLStrip(s: string)
    ensures Blank(LStripBreaks(s)) <==> Blank(s)
  {
    if s != "" && s[0] == '\n' {
      BlankLStrip(s[1..]);
      BlankHead(s);
    }
  }

  function Breaks(n: nat): string {
    if n == 0 then "" else "\n" + Breaks(n - 1)
  }

  /** Whitespace that is empty or ends a line. */
  predicate BlankLines(s: string) {
    Blank(s) && (s != "" ==> s[|s| - 1] == '\n')
  }

  lemma {:induction false} TrimmedAfterBlankLines(lead: string, text: string)
    requires BlankLines(lead) && !Blank(text)
    ensures Trimmed(lead + text) == Breaks(LineBreaks(lead)) + Trimmed(text)
    ensures lead != "" ==> LineBreaks(lead) > 0
  {
    hide IsSpace, Blank;
    if lead == "" {
      assert lead + text == text;
    } else {
      assert (lead + text)[1..] == lead[1..] + text;
      BlankHead(lead);
      TrimmedAfterBlankLines(lead[1..], text);
      TrimmedEmptyIff(text);
    }
  }

  lemma {:induction false} UniversalJoin(lead: string, text: string)
    requires lead != "" ==> lead[|lead| - 1] != '\r'
    ensures Universal(lead + text) == Universal(lead) + Universal(text)
  {
    if lead == "" {
      assert lead + text == text;
    } else if lead[0] == '\r' && |lead| > 1 && lead[1] == '\n' {
      assert (lead + text)[2..] == lead[2..] + text;
      UniversalJoin(lead[2..], text);
    } else {
      assert (lead + text)[1..] == lead[1..] + text;
      UniversalJoin(lead[1..], text);
    }
  }

  lemma {:induction false} LStripOfJoin(lead: string, text: string)
    requires text == "" || text[0] != '\n'
    ensures LStripBreaks(lead + text) == LStripBreaks(lead) + text
  {
    if lead == "" {
      assert lead + text == text;
    } else {
      assert (lead + text)[1..] == lead[1..] + text;
      if lead[0] == '\n' {
        LStripOfJoin(lead[1..], text);
      }
    }
  }

  lemma {:induction false} LStripCounts(s: string)
    ensures LineBreaks(LStripBreaks(s)) + StartBreaks(s) == LineBreaks(s)
    ensures BlankLines(s) ==> BlankLines(LStripBreaks(s))
  {
    if s != "" && s[0] == '\n' {
      LStripCounts(s[1..]);
      BlankHead(s);
    }
  }

  lemma {:induction false} UniversalCounts(s: string)
    ensures LineBreaks(Universal(s)) == LineBreaks(s) + BareReturns(s)
    ensures BlankLines(s) ==> BlankLines(Universal(s))
  {
    assert Blank("") && IsSpace('\n') && IsSpace('\r');
    hide IsSpace, Blank;
    if s == "" {
    } else if s[0] == '\r' && |s| > 1 && s[1] == '\n' {
      UniversalCounts(s[2..]);
      BlankHead(s);
      BlankHead(s[1..]);
      assert s[1..][1..] == s[2..];
      BlankHead(Universal(s));
    } else {
      UniversalCounts(s[1..]);
      BlankHead(s);
      BlankHead(Universal(s));
    }
  }

  /** What the reader keeps of the blank lines in front of the text. */
  lemma RereadParts(lead: string, text: string)
    requires BlankLines(lead) && !Blank(text) && text[0] !in {'\n', '\r'}
    ensures StartBreaks(Universal(lead)) <= LineBreaks(lead) + BareReturns(lead)
    ensures Trimmed(Reread(lead + text))
         == Breaks(LineBreaks(lead) + BareReturns(lead) - StartBreaks(Universal(lead))) + Trimmed(Universal(text))
  {
    var u := Universal(lead);
    UniversalJoin(lead, text);
    UniversalCounts(lead);
    LStripCounts(u);
    LStripOfJoin(u, Universal(text));
    BlankUniversal(text);
    TrimmedAfterBlankLines(LStripBreaks(u), Universal(text));
  }

  lemma {:induction false} BreaksInjective(m: nat, n: nat, s: string, t: string)
    requires !Blank(s) && !Blank(t) && s[0] != '\n' && t[0] != '\n'
    ensures Breaks(m) + s == Breaks(n) + t <==> m == n && s == t
  {
    if m == 0 || n == 0 {
      assert m == 0 ==> Breaks(m) + s == s;
      assert n == 0 ==> Breaks(n) + t == t;
    } else {
      BreaksInjective(m - 1, n - 1, s, t);
      assert Breaks(m) + s == "\n" + (Breaks(m - 1) + s);
      assert Breaks(n) + t == "\n" + (Breaks(n - 1) + t);
      assert ("\n" + (Breaks(m - 1) + s))[1..] == Breaks(m - 1) + s;
      assert ("\n" + (Breaks(n - 1) + t))[1..] == Breaks(n - 1) + t;
    }
  }

  /** A first line with text keeps its first character. */
  lemma {:induction false} TrimmedKeepsFirst(s: string)
    requires !Blank(s) && BlankLead(s) == 0
    ensures !Blank(Trimmed(s)) && Trimmed(s)[0] == s[0] != '\n'
  {
    BlankHead(s);
    TrimmedEmptyIff(s[1..]);
    if IsSpace(s[0]) {
      TrimmedKeepsFirst(s[1..]);
      assert Trimmed(s)[1..] == Trimmed(s[1..]);
      BlankHead(Trimmed(s));
    }
  }

  lemma {:induction false} TextAfterLead(s: string)
    requires !Blank(s)
    ensures !Blank(s[BlankLead(s)..]) && BlankLead(s[BlankLead(s)..]) == 0
  {
    BlankHead(s);
    if BlankLead(s) > 0 {
      assert s[BlankLead(s)..] == s[1..][BlankLead(s) - 1..];
      if BlankLead(s[1..]) > 0 {
        TextAfterLead(s[1..]);
      } else {
        assert s[1..][0..] == s[1..];
      }
    } else {
      assert s[0..] == s;
    }
  }

  lemma {:induction false} TrimmedAddsNothing(s: string)
    ensures forall c :: c in Trimmed(s) ==> c in s
  {
    if s != "" {
      TrimmedAddsNothing(s[1..]);
    }
  }

  /** A carriage return in front of the first text survives trimming, and is bare. */
  lemma {:induction false} LeadingReturnStays(s: string)
    requires !Blank(s) && BlankLead(s) == 0 && !LeadingBlanksHoldNoReturn(s)
    ensures '\r' in Trimmed(s) && !BareReturnsOnlyInTail(s)
  {
    BlankHead(s);
    BareReturnsHead(s);
    TrimmedKeepsFirst(s);
    if s[0] == '\r' {
      assert s[0..] == s;
      assert !ReturnOk(s, 0);
    } else {
      LeadingReturnStays(s[1..]);
      TrimmedKeepsFirst(s[1..]);
    }
  }

  lemma {:induction false} UniversalKeepsFirst(s: string)
    requires !Blank(s) && BlankLead(s) == 0 && LeadingBlanksHoldNoReturn(s)
    ensures !Blank(Universal(s)) && BlankLead(Universal(s)) == 0
  {
    BlankUniversal(s);
    BlankHead(s);
    if IsSpace(s[0]) {
      UniversalKeepsFirst(s[1..]);
    }
  }

  /** When a body still matches its own hash after being written and read. A
      blank body always does. */
  lemma HashSurvivesIff(body: string)
    ensures BodyHash(Reread(body)) == BodyHash(body) <==> Blank(body) || SurvivesReading(body)
  {
    HashIsTrimmed(Reread(body), body);
    if Blank(body) {
      BlankUniversal(body);
      BlankLStrip(Universal(body));
      TrimmedEmptyIff(body);
      TrimmedEmptyIff(Reread(body));
    } else {
      TrimmedSurvivesIff(body);
    }
  }

  lemma TrimmedSurvivesIff(body: string)
    requires !Blank(body)
    ensures Trimmed(Reread(body)) == Trimmed(body) <==> SurvivesReading(body)
  {
    hide Trimmed, Reread, BareReturnsOnlyInTail, BareReturns, StartBreaks, Universal, LeadingBlanksHoldNoReturn;
    var k := BlankLead(body);
    assert body == body[..k] + body[k..];
    TextAfterLead(body);
    if LeadingBlanksHoldNoReturn(body[k..]) {
      PlainTextSurvivesIff(body[..k], body[k..]);
    } else {
      ReturnInTextIsLost(body[..k], body[k..]);
    }
  }

  lemma PlainTextSurvivesIff(lead: string, text: string)
    requires BlankLines(lead) && !Blank(text) && BlankLead(text) == 0 && LeadingBlanksHoldNoReturn(text)
    ensures Trimmed(Reread(lead + text)) == Trimmed(lead + text) <==>
            BareReturnsOnlyInTail(text) && BareReturns(lead) == StartBreaks(Universal(lead))
  {
    hide Trimmed, Reread, BareReturnsOnlyInTail, BareReturns, StartBreaks, Universal, LineBreaks;
    TrimmedAfterBlankLines(lead, text);
    RereadParts(lead, text);
    TrimmedKeepsFirst(text);
    UniversalKeepsFirst(text);
    TrimmedKeepsFirst(Universal(text));
    UniversalTrimmedIff(text);
    BreaksInjective(LineBreaks(lead) + BareReturns(lead) - StartBreaks(Universal(lead)), LineBreaks(lead),
                    Trimmed(Universal(text)), Trimmed(text));
  }

  lemma ReturnInTextIsLost(lead: string, text: string)
    requires BlankLines(lead) && !Blank(text) && BlankLead(text) == 0 && !LeadingBlanksHoldNoReturn(text)
    ensures !BareReturnsOnlyInTail(text)
    ensures Trimmed(Reread(lead + text)) != Trimmed(lead + text)
  {
    hide Trimmed, BareReturnsOnlyInTail, Universal, LineBreaks;
    TrimmedAfterBlankLines(lead, text);
    LeadingReturnStays(text);
    UniversalHasNoReturn(lead + text);
    LStripBreaksSuffix(Universal(lead + text));
    TrimmedAddsNothing(Reread(lead + text));
  }

  lemma {:induction false} BareReturnsAfter(head: string, rest: string)
    requires '\r' !in head
    ensures BareReturnsOnlyInTail(head + rest) <==> BareReturnsOnlyInTail(rest)
  {
    if head == "" {
      assert head + rest == rest;
    } else {
      assert (head + rest)[1..] == head[1..] + rest;
      BareReturnsHead(head + rest);
      BareReturnsAfter(head[1..], rest);
    }
  }

  lemma {:induction false} BlankLeadOf(head: string, rest: string)
    requires !Blank(head)
    ensures !Blank(head + rest) && BlankLead(head + rest) == BlankLead(head)
  {
    assert (head + rest)[1..] == head[1..] + rest;
    BlankHead(head);
    BlankHead(head + rest);
    if IsSpace(head[0]) {
      BlankLeadOf(head[1..], rest);
    }
  }

  lemma {:induction false} NoBareReturns(s: string)
    requires '\r' !in s
    ensures BareReturns(s) == 0
  {
    if s != "" {
      NoBareReturns(s[1..]);
    }
  }

  /** A body that begins with text free of carriage returns. */
  lemma PlainHeadSurvivesIff(head: string, rest: string)
    requires '\r' !in head && !Blank(head)
    ensures BodyHash(Reread(head + rest)) == BodyHash(head + rest) <==>
            head[0] != '\n' && BareReturnsOnlyInTail(rest)
  {
    hide BareReturnsOnlyInTail, Reread, Normalized, LStripBreaks, BareReturns;
    var body, k := head + rest, BlankLead(head);
    HashSurvivesIff(body);
    BlankLeadOf(head, rest);
    assert body[..k] == head[..k] && body[k..] == head[k..] + rest;
    BareReturnsAfter(head[k..], rest);
    NoBareReturns(head[..k]);
    UniversalFixes(head[..k]);
  }

  // ---- What the parts mean ------------------------------------------------

  /** Every line end becomes a line feed, the first carriage return first. */
  lemma UniversalMeans(plain: string, rest: string)
    requires '\r' !in plain
    ensures Universal(plain) == plain
    ensures Universal(plain + ("\r\n" + rest)) == plain + ("\n" + Universal(rest))
    ensures rest == "" || rest[0] != '\n' ==> Universal(plain + ("\r" + rest)) == plain + ("\n" + Universal(rest))
  {
    UniversalFixes(plain);
    UniversalPlain(plain, "\r\n" + rest);
    UniversalPlain(plain, "\r" + rest);
    UniversalAtReturn(rest);
  }

  lemma UniversalAtReturn(rest: string)
    ensures Universal("\r\n" + rest) == "\n" + Universal(rest)
    ensures rest == "" || rest[0] != '\n' ==> Universal("\r" + rest) == "\n" + Universal(rest)
  {
    assert ("\r\n" + rest)[2..] == rest;
    assert ("\r" + rest)[1..] == rest;
  }

  lemma {:induction false} LStripMeans(breaks: string, rest: string)
    requires (forall i :: 0 <= i < |breaks| ==> breaks[i] == '\n') && (rest == "" || rest[0] != '\n')
    ensures LStripBreaks(breaks + rest) == rest
  {
    if breaks == "" {
      assert breaks + rest == rest;
    } else {
      assert (breaks + rest)[1..] == breaks[1..] + rest;
      LStripMeans(breaks[1..], rest);
    }
  }

  /** A file is refused exactly when it does not begin with the delimiter, or no
      later line does. */
  lemma ReadBackMeans(disk: string)
    ensures var text := Universal(disk);
            && (ReadBack(disk) == Failure(MissingOpening) <==> !("---" <= text))
            && (ReadBack(disk) == Failure(MissingClosing) <==>
                  "---" <= text && forall i :: 3 <= i <= |text| ==> !("\n---" <= text[i..]))
            && (ReadBack(disk).Success? ==>
                  exists end :: 3 <= end <= |text| - 4 && "\n---" <= text[end..]
                    && (forall i :: 3 <= i < end ==> !("\n---" <= text[i..]))
                    && ReadBack(disk).value.frontmatter == text[3..end]
                    && ReadBack(disk).value.body == LStripBreaks(text[end + 4..]))
  {
    var text := Universal(disk);
    if "---" <= text {
      var found := Find(text, "\n---", 3);
      if found.Some? {
        assert "\n---" <= text[found.value..];
      }
    }
  }
}
