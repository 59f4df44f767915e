/** What the artifact store does to text: the body hash, the file layout, and
    what a write followed by a read gives back. */
module ArtifactText {

  /** SHA-256 treated as an injective function of the normalized body. */
  datatype Hash = Sha256(normalized: string)

  /** The characters removed by a bare `str.rstrip()`. */
  predicate IsSpace(c: char) {
    || '\t' <= c <= '\r'
    || '\U{1c}' <= c <= ' '
    || c in {'\U{85}', '\U{a0}', '\U{1680}', '\U{2028}', '\U{2029}', '\U{202f}', '\U{205f}', '\U{3000}'}
    || '\U{2000}' <= c <= '\U{200a}'
  }

  predicate Blank(s: string) {
    forall i :: 0 <= i < |s| ==> IsSpace(s[i])
  }

  // ---- The body hash, line by line as the code computes it ----------------

  function Split(s: string): (lines: seq<string>)
    ensures |lines| >= 1
    ensures forall i :: 0 <= i < |lines| ==> '\n' !in lines[i]
  {
    if s == "" then [""]
    else
      var rest := Split(s[1..]);
      if s[0] == '\n' then [""] + rest else [[s[0]] + rest[0]] + rest[1..]
  }

  function RStrip(s: string): (r: string)
    ensures r <= s
  {
    if s == "" then ""
    else
      var rest := RStrip(s[1..]);
      if rest == "" && IsSpace(s[0]) then "" else [s[0]] + rest
  }

  function RStripAll(lines: seq<string>): (r: seq<string>)
    ensures |r| == |lines|
    ensures forall i :: 0 <= i < |lines| ==> r[i] == RStrip(lines[i])
  {
    if lines == [] then [] else [RStrip(lines[0])] + RStripAll(lines[1..])
  }

  function DropBlankTail(lines: seq<string>): (r: seq<string>)
    ensures r <= lines
    ensures r != [] ==> r[|r| - 1] != ""
    ensures forall i :: |r| <= i < |lines| ==> lines[i] == ""
  {
    if lines == [] then []
    else
      var rest := DropBlankTail(lines[1..]);
      PutLine(lines[0], rest)
  }

  function PutLine(line: string, rest: seq<string>): seq<string> {
    if rest == [] && line == "" then [] else [line] + rest
  }

  function Join(lines: seq<string>): string {
    if lines == [] then ""
    else if |lines| == 1 then lines[0]
    else lines[0] + "\n" + Join(lines[1..])
  }

  function NormalizedLines(body: string): (lines: seq<string>)
    ensures lines != [] ==> lines[|lines| - 1] != ""
    ensures forall i :: 0 <= i < |lines| ==> '\n' !in lines[i]
  {
    DropBlankTail(RStripAll(Split(body)))
  }

  function Normalized(body: string): string {
    Join(NormalizedLines(body) + [""])
  }

  function BodyHash(body: string): Hash {
    Sha256(Normalized(body))
  }

  /** Popping trailing empty lines one at a time. */
  lemma DropBlankTailUnique(lines: seq<string>, n: nat)
    requires n <= |lines|
    requires n > 0 ==> lines[n - 1] != ""
    requires forall i :: n <= i < |lines| ==> lines[i] == ""
    ensures DropBlankTail(lines) == lines[..n]
  {
  }

  method ComputeBodyHash(body: string) returns (h: Hash)
    ensures h == BodyHash(body)
  {
    var lines := RStripAll(Split(body));
    ghost var all := lines;
    while |lines| > 0 && lines[|lines| - 1] == ""
      invariant lines <= all
      invariant forall i :: |lines| <= i < |all| ==> all[i] == ""
    {
      lines := lines[..|lines| - 1];
    }
    DropBlankTailUnique(all, |lines|);
    assert lines == all[..|lines|];
    lines := lines + [""];
    h := Sha256(Join(lines));
  }

  /** Line `i` with its trailing whitespace gone; lines past the end are empty. */
  function LineAt(body: string, i: nat): string {
    var lines := Split(body);
    if i < |lines| then RStrip(lines[i]) else ""
  }

  lemma {:induction false} SplitOfJoin(lines: seq<string>)
    requires lines != []
    requires forall i :: 0 <= i < |lines| ==> '\n' !in lines[i]
    ensures Split(Join(lines)) == lines
  {
    if |lines| == 1 {
      SplitOfPlain(lines[0], []);
      assert lines[0] + [] == lines[0];
    } else {
      SplitOfJoin(lines[1..]);
      SplitOfLine(lines[0], Join(lines[1..]));
      assert lines[0] + "\n" + Join(lines[1..]) == lines[0] + ("\n" + Join(lines[1..]));
    }
  }

  lemma {:induction false} SplitOfPlain(line: string, rest: string)
    requires '\n' !in line
    ensures Split(line + rest)[0] == line + Split(rest)[0]
    ensures Split(line + rest)[1..] == Split(rest)[1..]
  {
    if line == "" {
      assert line + rest == rest;
    } else {
      assert (line + rest)[1..] == line[1..] + rest;
      SplitOfPlain(line[1..], rest);
    }
  }

  lemma SplitOfLine(line: string, rest: string)
    requires '\n' !in line
    ensures Split(line + ("\n" + rest)) == [line] + Split(rest)
  {
    SplitOfPlain(line, "\n" + rest);
    assert ("\n" + rest)[1..] == rest;
    assert Split("\n" + rest) == [""] + Split(rest);
    assert ([""] + Split(rest))[1..] == Split(rest);
    assert line + "" == line;
    var all := Split(line + ("\n" + rest));
    assert all == [all[0]] + all[1..];
  }

  lemma NormalizedIffLines(a: string, b: string)
    ensures Normalized(a) == Normalized(b) <==> NormalizedLines(a) == NormalizedLines(b)
  {
    hide NormalizedLines;
    var la, lb := NormalizedLines(a), NormalizedLines(b);
    SplitOfJoin(la + [""]);
    SplitOfJoin(lb + [""]);
    assert la == (la + [""])[..|la|] && lb == (lb + [""])[..|lb|];
  }

  /** Two bodies hash alike exactly when they agree line by line, up to trailing
      whitespace on a line and trailing blank lines. */
  lemma HashesAlikeIff(a: string, b: string)
    ensures BodyHash(a) == BodyHash(b) <==> forall i: nat :: LineAt(a, i) == LineAt(b, i)
  {
    NormalizedIffLines(a, b);
    forall i: nat
      ensures LineAt(a, i) == LineOf(NormalizedLines(a), i)
      ensures LineAt(b, i) == LineOf(NormalizedLines(b), i)
    {
      LineAtNormalized(a, i);
      LineAtNormalized(b, i);
    }
    if forall i: nat :: LineAt(a, i) == LineAt(b, i) {
      SameLines(NormalizedLines(a), NormalizedLines(b));
    }
  }

  function LineOf(lines: seq<string>, i: nat): string {
    if i < |lines| then lines[i] else ""
  }

  lemma SameLines(a: seq<string>, b: seq<string>)
    requires a != [] ==> a[|a| - 1] != ""
    requires b != [] ==> b[|b| - 1] != ""
    requires forall i: nat :: LineOf(a, i) == LineOf(b, i)
    ensures a == b
  {
    assert a != [] ==> LineOf(a, |a| - 1) == LineOf(b, |a| - 1);
    assert b != [] ==> LineOf(a, |b| - 1) == LineOf(b, |b| - 1);
    forall i | 0 <= i < |a| && i < |b|
      ensures a[i] == b[i]
    {
      assert LineOf(a, i) == LineOf(b, i);
    }
  }

  lemma LineAtNormalized(body: string, i: nat)
    ensures LineAt(body, i) == LineOf(NormalizedLines(body), i)
  {
    var r := RStripAll(Split(body));
    if i < |r| {
      assert r[i] == RStrip(Split(body)[i]);
    }
  }

  // ---- The same normal form, one character at a time ----------------------

  /** `c` in front of the trimmed text `t`: whitespace before a line end, or
      before nothing, disappears. */
  function Before(c: char, t: string): string {
    if t == "" && IsSpace(c) then ""
    else if c != '\n' && IsSpace(c) && t[0] == '\n' then t
    else [c] + t
  }

  function Trimmed(s: string): string {
    if s == "" then "" else Before(s[0], Trimmed(s[1..]))
  }

  lemma {:induction false} TrimmedJoins(s: string)
    ensures Trimmed(s) == Join(NormalizedLines(s))
  {
    if s != "" {
      TrimmedJoins(s[1..]);
      NormalizedSplit(s[1..]);
      NormalizedSplit(s);
      if s[0] == '\n' {
        NormalizedBreak(s);
        JoinBreak(NormalizedLines(s[1..]));
      } else {
        NormalizedPlain(s);
        TrimmedPlainStep(s[0], FirstLine(s[1..]), RestLines(s[1..]));
      }
    }
  }

  function FirstLine(s: string): (line: string)
    ensures '\n' !in line
  {
    RStrip(Split(s)[0])
  }

  function RestLines(s: string): (lines: seq<string>)
    ensures lines != [] ==> lines[|lines| - 1] != ""
  {
    DropBlankTail(RStripAll(Split(s)[1..]))
  }

  lemma NormalizedSplit(s: string)
    ensures NormalizedLines(s) == PutLine(FirstLine(s), RestLines(s))
  {
    var lines := Split(s);
    assert [lines[0]] + lines[1..] == lines;
    NormalizedHead(lines[0], lines[1..]);
  }

  lemma NormalizedBreak(s: string)
    requires s != "" && s[0] == '\n'
    ensures NormalizedLines(s) == PutLine("", NormalizedLines(s[1..]))
  {
    NormalizedHead("", Split(s[1..]));
  }

  lemma NormalizedPlain(s: string)
    requires s != "" && s[0] != '\n'
    ensures RestLines(s) == RestLines(s[1..])
    ensures FirstLine(s) ==
            if FirstLine(s[1..]) == "" && IsSpace(s[0]) then "" else [s[0]] + FirstLine(s[1..])
  {
    var lines := Split(s[1..]);
    var line := [s[0]] + lines[0];
    assert line[1..] == lines[0];
    assert ([line] + lines[1..])[1..] == lines[1..];
  }

  lemma JoinBreak(n: seq<string>)
    requires n != [] ==> n[|n| - 1] != ""
    ensures Join(PutLine("", n)) == Before('\n', Join(n))
  {
    if n != [] {
      assert ([""] + n)[1..] == n;
      JoinNonempty(n);
    }
  }

  lemma JoinNonempty(n: seq<string>)
    requires n != [] && n[|n| - 1] != ""
    ensures Join(n) != ""
  {
  }

  lemma NormalizedHead(line: string, rest: seq<string>)
    ensures DropBlankTail(RStripAll([line] + rest))
         == PutLine(RStrip(line), DropBlankTail(RStripAll(rest)))
  {
    assert ([line] + rest)[1..] == rest;
    assert ([RStrip(line)] + RStripAll(rest))[1..] == RStripAll(rest);
  }

  /** A further character at the head of the first line. */
  lemma TrimmedPlainStep(c: char, first: string, tail: seq<string>)
    requires c != '\n' && '\n' !in first
    requires tail != [] ==> tail[|tail| - 1] != ""
    ensures var line := if first == "" && IsSpace(c) then "" else [c] + first;
            Join(PutLine(line, tail)) == Before(c, Join(PutLine(first, tail)))
  {
    if tail != [] {
      assert forall l: string :: ([l] + tail)[1..] == tail;
      assert first != "" ==> (first + "\n" + Join(tail))[0] == first[0];
      assert [c] + (first + "\n" + Join(tail)) == ([c] + first) + "\n" + Join(tail);
    }
  }

  lemma {:induction false} JoinWithFinalBreak(lines: seq<string>)
    ensures Join(lines + [""]) == if lines == [] then "" else Join(lines) + "\n"
  {
    if |lines| >= 1 {
      assert (lines + [""])[1..] == lines[1..] + [""];
      JoinWithFinalBreak(lines[1..]);
      if |lines| > 1 {
        assert Join(lines) == lines[0] + "\n" + Join(lines[1..]);
      }
    }
  }

  /** The hash decides exactly what the character-level normal form decides. */
  lemma HashIsTrimmed(a: string, b: string)
    ensures BodyHash(a) == BodyHash(b) <==> Trimmed(a) == Trimmed(b)
  {
    TrimmedJoins(a);
    TrimmedJoins(b);
    JoinWithFinalBreak(NormalizedLines(a));
    JoinWithFinalBreak(NormalizedLines(b));
    var ta, tb := Trimmed(a), Trimmed(b);
    if ta + "\n" == tb + "\n" {
      assert ta == (ta + "\n")[..|ta|] && tb == (tb + "\n")[..|tb|];
    }
  }

  lemma {:induction false} TrimmedTail(a: string, x: string, y: string)
    requires Trimmed(x) == Trimmed(y)
    ensures Trimmed(a + x) == Trimmed(a + y)
  {
    if a == "" {
      assert a + x == x && a + y == y;
    } else {
      assert (a + x)[1..] == a[1..] + x && (a + y)[1..] == a[1..] + y;
      TrimmedTail(a[1..], x, y);
    }
  }

  /** Whitespace put in at the end of a line, or of the body, does not change the hash. */
  lemma TrailingSpaceKeepsHash(a: string, c: char, b: string)
    requires IsSpace(c) && c != '\n'
    requires b == "" || b[0] == '\n'
    ensures BodyHash(a + [c] + b) == BodyHash(a + b)
  {
    assert ([c] + b)[1..] == b;
    TrimmedTail(a, [c] + b, b);
    assert a + [c] + b == a + ([c] + b);
    HashIsTrimmed(a + [c] + b, a + b);
  }

  // ---- What the parts mean ------------------------------------------------

  lemma SpaceTable(c: char)
    ensures IsSpace(c) <==>
            var n := c as int;
            || 9 <= n <= 13 || 28 <= n <= 32 || n == 133 || n == 160 || n == 5760
            || 8192 <= n <= 8202 || n == 8232 || n == 8233 || n == 8239 || n == 8287 || n == 12288
  {
  }

  lemma {:induction false} RStripMeans(line: string)
    ensures RStrip(line) <= line
    ensures forall i :: |RStrip(line)| <= i < |line| ==> IsSpace(line[i])
    ensures RStrip(line) != "" ==> !IsSpace(RStrip(line)[|RStrip(line)| - 1])
  {
    if line != "" {
      RStripMeans(line[1..]);
      assert forall i :: 0 < i < |line| ==> line[i] == line[1..][i - 1];
    }
  }

  lemma {:induction false} JoinOfSplit(s: string)
    ensures Join(Split(s)) == s
  {
    if s != "" {
      JoinOfSplit(s[1..]);
      var rest := Split(s[1..]);
      if s[0] == '\n' {
        assert ([""] + rest)[1..] == rest;
        assert Join([""] + rest) == "" + "\n" + Join(rest);
      } else {
        var line := [s[0]] + rest[0];
        assert ([line] + rest[1..])[1..] == rest[1..];
        assert Join(rest) == if |rest| == 1 then rest[0] else rest[0] + "\n" + Join(rest[1..]);
        assert Join([line] + rest[1..]) == [s[0]] + Join(rest);
      }
    }
  }

  /** The text that is hashed: the stripped lines, each with a line break, up to the
      last that is not empty. */
  lemma HashedLines(body: string)
    ensures var lines := Split(BodyHash(body).normalized);
            && BodyHash(body).normalized == Join(lines)
            && lines[|lines| - 1] == ""
            && (|lines| > 1 ==> lines[|lines| - 2] != "")
            && forall i :: 0 <= i < |lines| - 1 ==> lines[i] == LineAt(body, i)
  {
    var lines := NormalizedLines(body);
    SplitOfJoin(lines + [""]);
    forall i | 0 <= i < |lines|
      ensures lines[i] == LineAt(body, i)
    {
      LineAtNormalized(body, i);
    }
  }
}
