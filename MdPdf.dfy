/** The Markdown-to-PDF script (scripts/generate_pdf.py, `md_to_pdf`): the
    text is cut into paragraphs at blank lines, each paragraph becomes a
    title, a heading or an XML-escaped body paragraph, and each is followed
    by a spacer. ReportLab's layout and the file handling are not modelled;
    the result here is the `story` list handed to the document builder. */
module MdPdf {
  import opened Wrappers
  import opened Text

  datatype Style = Title | Heading | Body

  /** The two kinds of flowable the script appends to its story. */
  datatype Flowable = Paragraph(text: string, style: Style) | Spacer(width: nat, height: nat)

  const BlankLine: string := "\n\n"

  // --------------------------------------------------------- paragraphs

  /** `[p.strip() for p in text.split('\n\n') if p.strip()]` */
  function Paragraphs(text: string): (ps: seq<string>)
    ensures |ps| <= |SplitOn(text, BlankLine)|
    ensures forall k :: 0 <= k < |ps| ==> ps[k] != [] && !IsSpace(ps[k][0]) && !IsSpace(ps[k][|ps[k]| - 1])
  {
    StripNonEmpty(SplitOn(text, BlankLine))
  }

  /** Each paragraph is a non-empty, trimmed piece of one blank-line-separated
      chunk of the text, so it holds no blank-line separator itself. */
  lemma ParagraphsAreTrimmedChunks(text: string)
    ensures forall k :: 0 <= k < |Paragraphs(text)| ==>
      var p := Paragraphs(text)[k];
      p != [] && !IsSpace(p[0]) && !IsSpace(p[|p| - 1]) && !Contains(p, BlankLine)
  {
    SplitOnPieces(text, BlankLine);
    StrippedChunksSeparatorFree(SplitOn(text, BlankLine));
  }

  lemma {:induction false} StrippedChunksSeparatorFree(chunks: seq<string>)
    requires forall k :: 0 <= k < |chunks| ==> !Contains(chunks[k], BlankLine)
    ensures forall k :: 0 <= k < |StripNonEmpty(chunks)| ==> !Contains(StripNonEmpty(chunks)[k], BlankLine)
  {
    if chunks != [] {
      StrippedChunksSeparatorFree(chunks[1..]);
      var c := chunks[0];
      InfixFree(c, StripStart(c), StripStart(c) + |Strip(c)|, BlankLine);
    }
  }

  /** A text without a blank line and with some non-blank content is one
      paragraph: the whole text, trimmed. */
  lemma SingleParagraph(text: string)
    requires !Contains(text, BlankLine) && Strip(text) != []
    ensures Paragraphs(text) == [Strip(text)]
  {
    assert SplitOn(text, BlankLine) == [text];
    assert StripNonEmpty([text]) == [Strip(text)] + StripNonEmpty([]);
  }

  /** Paragraphs keep the order of the chunks they come from: the
      paragraphs of two texts joined by a blank line are those of the first
      followed by those of the second, when the first is a single chunk. */
  lemma {:induction false} ParagraphsOfJoin(a: string, b: string)
    requires !Contains(a, BlankLine) && (a == [] || a[|a| - 1] != '\n')
    ensures Paragraphs(a + BlankLine + b) == StripNonEmpty([a]) + Paragraphs(b)
  {
    var s := a + BlankLine + b;
    FirstBlankLineAfter(a, b);
    assert s[..|a|] == a && s[|a| + 2..] == b;
    var chunks := SplitOn(s, BlankLine);
    assert chunks == [a] + SplitOn(b, BlankLine);
    assert chunks[1..] == SplitOn(b, BlankLine);
  }

  lemma FirstBlankLineAfter(a: string, b: string)
    requires !Contains(a, BlankLine) && (a == [] || a[|a| - 1] != '\n')
    ensures Find(a + BlankLine + b, BlankLine) == Some(|a|)
  {
    var s := a + BlankLine + b;
    assert s[|a|..|a| + 2] == BlankLine;
    forall j | 0 <= j < |a| ensures !OccursAt(s, BlankLine, j) {
      if j + 2 <= |a| {
        assert s[j..j + 2] == a[j..j + 2];
        assert !OccursAt(a, BlankLine, j);
      } else {
        assert s[j] == a[|a| - 1] != '\n';
        assert s[j..j + 2][0] == s[j];
      }
    }
    assert OccursAt(s, BlankLine, |a|);
  }

  // ----------------------------------------------------- classification

  /** The style a paragraph gets and the text it is rendered with. */
  function Block(p: string): (Style, string) {
    if StartsWith(p, "# ") then (Title, Strip(p[2..]))
    else if StartsWith(p, "## ") then (Heading, Strip(p[3..]))
    else (Body, Escape(p))
  }

  /** The spacer height after each kind of paragraph. */
  function SpacerHeight(style: Style): nat {
    match style
    case Title => 12
    case Heading => 8
    case Body => 6
  }

  /** A paragraph starting "## " is a heading: it cannot also start "# ". */
  lemma HeadingNotTitle(p: string)
    requires StartsWith(p, "## ")
    ensures Block(p) == (Heading, Strip(p[3..]))
  {
    assert p[..3][1] == '#';
    assert p[..2][1] == '#';
    assert !StartsWith(p, "# ");
  }

  /** Deeper headings such as "### " are not recognised: they are body text. */
  lemma DeeperHeadingIsBody(p: string)
    requires StartsWith(p, "###")
    ensures Block(p) == (Body, Escape(p))
  {
    assert p[..3][1] == '#' && p[..3][2] == '#';
    assert p[..2][1] == '#';
    assert !StartsWith(p, "# ") && !StartsWith(p, "## ");
  }

  // ---------------------------------------------------------------- story

  /** The loop of `md_to_pdf` appending a paragraph and a spacer for each
      paragraph; title and heading text go through unescaped. */
  method BuildStory(paragraphs: seq<string>) returns (story: seq<Flowable>)
    ensures |story| == 2 * |paragraphs|
    ensures forall k :: 0 <= k < |paragraphs| ==>
      story[2 * k] == Paragraph(Block(paragraphs[k]).1, Block(paragraphs[k]).0)
      && story[2 * k + 1] == Spacer(1, SpacerHeight(Block(paragraphs[k]).0))
  {
    story := [];
    for i := 0 to |paragraphs|
      invariant |story| == 2 * i
      invariant forall k :: 0 <= k < i ==>
        story[2 * k] == Paragraph(Block(paragraphs[k]).1, Block(paragraphs[k]).0)
        && story[2 * k + 1] == Spacer(1, SpacerHeight(Block(paragraphs[k]).0))
    {
      var p := paragraphs[i];
      if StartsWith(p, "# ") {
        story := story + [Paragraph(Strip(p[2..]), Title), Spacer(1, 12)];
      } else if StartsWith(p, "## ") {
        story := story + [Paragraph(Strip(p[3..]), Heading), Spacer(1, 8)];
      } else {
        var escaped := Replace(Replace(Replace(p, "&", "&amp;"), "<", "&lt;"), ">", "&gt;");
        escaped := Replace(escaped, "\n", "<br/>");
        story := story + [Paragraph(escaped, Body), Spacer(1, 6)];
      }
    }
  }

  /** `md_to_pdf` from the text read to the story built: two flowables per
      paragraph, and every body paragraph can be unescaped back to its
      source paragraph. */
  method MdToStory(text: string) returns (story: seq<Flowable>)
    ensures |story| == 2 * |Paragraphs(text)|
    ensures forall k :: 0 <= k < |Paragraphs(text)| ==>
      story[2 * k] == Paragraph(Block(Paragraphs(text)[k]).1, Block(Paragraphs(text)[k]).0)
      && story[2 * k + 1] == Spacer(1, SpacerHeight(Block(Paragraphs(text)[k]).0))
    ensures forall k :: 0 <= k < |Paragraphs(text)| ==>
      story[2 * k].Paragraph? && story[2 * k + 1].Spacer?
    ensures forall k :: 0 <= k < |Paragraphs(text)| && story[2 * k].style == Body ==>
      Unescape(story[2 * k].text) == Paragraphs(text)[k]
  {
    var paragraphs := Paragraphs(text);
    story := BuildStory(paragraphs);
    forall k | 0 <= k < |paragraphs|
      ensures story[2 * k].Paragraph? && story[2 * k + 1].Spacer?
      ensures story[2 * k].style == Body ==> Unescape(story[2 * k].text) == paragraphs[k]
    {
      var b := Block(paragraphs[k]);
      assert story[2 * k] == Paragraph(b.1, b.0);
      UnescapeEscape(paragraphs[k]);
    }
  }

  // -------------------------------------------------------------- escape

  /** `p.replace('&', '&amp;').replace('<', '&lt;').replace('>', '&gt;')`
      followed by `.replace('\n', '<br/>')`. */
  function Escape(p: string): (e: string)
    ensures (forall i :: 0 <= i < |p| ==> p[i] !in "&<>\n") ==> e == p
  {
    EscapeNothing(p);
    Replace(Replace(Replace(Replace(p, "&", "&amp;"), "<", "&lt;"), ">", "&gt;"), "\n", "<br/>")
  }

  /** A text with none of `&`, `<`, `>` and the newline goes through the
      chain unchanged. */
  lemma EscapeNothing(p: string)
    ensures (forall i :: 0 <= i < |p| ==> p[i] !in "&<>\n") ==>
      Replace(Replace(Replace(Replace(p, "&", "&amp;"), "<", "&lt;"), ">", "&gt;"), "\n", "<br/>") == p
  {
    if forall i :: 0 <= i < |p| ==> p[i] !in "&<>\n" {
      CharAbsent(p, '&');
      ReplaceAbsent(p, "&", "&amp;");
      CharAbsent(p, '<');
      ReplaceAbsent(p, "<", "&lt;");
      CharAbsent(p, '>');
      ReplaceAbsent(p, ">", "&gt;");
      CharAbsent(p, '\n');
      ReplaceAbsent(p, "\n", "<br/>");
    }
  }

  lemma CharAbsent(p: string, c: char)
    requires forall i :: 0 <= i < |p| ==> p[i] != c
    ensures !Contains(p, [c])
  {
    ContainsIff(p, [c]);
    forall j ensures !OccursAt(p, [c], j) {
      if 0 <= j && j + 1 <= |p| {
        assert p[j..j + 1][0] == p[j];
      }
    }
  }

  /** The reverse chain: `<br/>`, then `&gt;`, `&lt;` and `&amp;`. */
  function Unescape(e: string): string {
    Replace(Replace(Replace(Replace(e, "<br/>", "\n"), "&gt;", ">"), "&lt;", "<"), "&amp;", "&")
  }

  // The proof of the round trip follows the characters through a ladder of
  // partial escapes: at level `l` the first `l` of `&`, `<`, `>` and the
  // newline are escaped. Each `replace` of the forward chain climbs one
  // level, each of the reverse chain goes one level down.

  /** What one character of the paragraph has become at level `l`. */
  function Chunk(l: nat, c: char): string {
    if c == '&' && l >= 1 then "&amp;"
    else if c == '<' && l >= 2 then "&lt;"
    else if c == '>' && l >= 3 then "&gt;"
    else if c == '\n' && l >= 4 then "<br/>"
    else [c]
  }

  function Escaped(l: nat, p: string): string {
    if p == [] then [] else Chunk(l, p[0]) + Escaped(l, p[1..])
  }

  /** The character the step from level `l` to `l + 1` escapes, and what it
      becomes. */
  function Raw(l: nat): string
    requires l < 4
  {
    ["&", "<", ">", "\n"][l]
  }

  function Entity(l: nat): string
    requires l < 4
  {
    ["&amp;", "&lt;", "&gt;", "<br/>"][l]
  }

  /** No occurrence of `pat` can start inside `ch`, whatever follows it:
      at each position the first or the second character already differs. */
  predicate MismatchInside(ch: string, pat: string)
    requires pat != []
  {
    forall i :: 0 <= i < |ch| ==>
      ch[i] != pat[0] || (|pat| >= 2 && i + 1 < |ch| && ch[i + 1] != pat[1])
  }

  lemma ChunkPasses(ch: string, rest: string, pat: string, rep: string)
    requires pat != [] && MismatchInside(ch, pat)
    ensures Replace(ch + rest, pat, rep) == ch + Replace(rest, pat, rep)
  {
    var s := ch + rest;
    forall i | 0 <= i < |ch| ensures !OccursAt(s, pat, i) {
      assert s[i] == ch[i];
      assert ch[i] != pat[0] || (|pat| >= 2 && i + 1 < |ch| && ch[i + 1] != pat[1]);
      if ch[i] != pat[0] {
        if i + |pat| <= |s| {
          assert s[i..i + |pat|][0] == s[i];
        }
      } else {
        assert s[i + 1] == ch[i + 1];
        if i + |pat| <= |s| {
          assert s[i..i + |pat|][1] == s[i + 1];
        }
      }
    }
    ReplaceSkip(s, pat, rep, |ch|);
    assert s[..|ch|] == ch && s[|ch|..] == rest;
  }

  /** One character, one step: either it is the one being (un)escaped, or
      its chunk is the same at both levels and the pattern cannot start in it. */
  lemma ChunkStep(l: nat, c: char)
    requires l < 4
    ensures (Chunk(l, c) == Raw(l) && Chunk(l + 1, c) == Entity(l))
      || (Chunk(l, c) == Chunk(l + 1, c)
          && MismatchInside(Chunk(l, c), Raw(l))
          && MismatchInside(Chunk(l + 1, c), Entity(l)))
  {
  }

  /** The forward `replace` at level `l` climbs to level `l + 1`. */
  lemma {:induction false} EscapeStep(l: nat, p: string)
    requires l < 4
    ensures Replace(Escaped(l, p), Raw(l), Entity(l)) == Escaped(l + 1, p)
  {
    if p != [] {
      EscapeStep(l, p[1..]);
      ChunkStep(l, p[0]);
      if Chunk(l, p[0]) == Raw(l) && Chunk(l + 1, p[0]) == Entity(l) {
        assert Escaped(l, p) == Raw(l) + Escaped(l, p[1..]);
        ReplaceHead(Escaped(l, p), Raw(l), Entity(l));
        assert Escaped(l, p)[|Raw(l)|..] == Escaped(l, p[1..]);
      } else {
        ChunkPasses(Chunk(l, p[0]), Escaped(l, p[1..]), Raw(l), Entity(l));
      }
    }
  }

  /** The reverse `replace` at level `l + 1` comes back down to level `l`. */
  lemma {:induction false} UnescapeStep(l: nat, p: string)
    requires l < 4
    ensures Replace(Escaped(l + 1, p), Entity(l), Raw(l)) == Escaped(l, p)
  {
    if p != [] {
      UnescapeStep(l, p[1..]);
      ChunkStep(l, p[0]);
      if Chunk(l, p[0]) == Raw(l) && Chunk(l + 1, p[0]) == Entity(l) {
        assert Escaped(l + 1, p) == Entity(l) + Escaped(l + 1, p[1..]);
        ReplaceHead(Escaped(l + 1, p), Entity(l), Raw(l));
        assert Escaped(l + 1, p)[|Entity(l)|..] == Escaped(l + 1, p[1..]);
      } else {
        ChunkPasses(Chunk(l + 1, p[0]), Escaped(l + 1, p[1..]), Entity(l), Raw(l));
      }
    }
  }

  lemma {:induction false} EscapedNothing(p: string)
    ensures Escaped(0, p) == p
  {
    if p != [] {
      EscapedNothing(p[1..]);
    }
  }

  /** The script's escape chain is the character-by-character escape. */
  lemma EscapeIsChunked(p: string)
    ensures Escape(p) == Escaped(4, p)
  {
    EscapedNothing(p);
    EscapeStep(0, p);
    EscapeStep(1, p);
    EscapeStep(2, p);
    EscapeStep(3, p);
  }

  /** Reversing the escape chain recovers the original paragraph. */
  lemma UnescapeEscape(p: string)
    ensures Unescape(Escape(p)) == p
  {
    EscapeIsChunked(p);
    UnescapeStep(3, p);
    UnescapeStep(2, p);
    UnescapeStep(1, p);
    UnescapeStep(0, p);
    EscapedNothing(p);
  }

  /** Body text as handed to ReportLab: the only markup characters in it are
      those of the inserted line breaks, and it has no newline. */
  predicate MarkupFree(e: string)
    decreases |e|
  {
    e == []
    || (StartsWith(e, "<br/>") && MarkupFree(e[5..]))
    || (e[0] != '<' && e[0] != '>' && e[0] != '\n' && MarkupFree(e[1..]))
  }

  lemma {:induction false} EscapedMarkupFree(p: string)
    ensures MarkupFree(Escaped(4, p))
  {
    if p != [] {
      EscapedMarkupFree(p[1..]);
      var ch := Chunk(4, p[0]);
      var rest := Escaped(4, p[1..]);
      var e := ch + rest;
      if ch == "<br/>" {
        assert e[..5] == ch && e[5..] == rest;
      } else {
        PlainPrefix(ch, rest);
      }
    }
  }

  lemma {:induction false} PlainPrefix(ch: string, rest: string)
    requires forall i :: 0 <= i < |ch| ==> ch[i] != '<' && ch[i] != '>' && ch[i] != '\n'
    requires MarkupFree(rest)
    ensures MarkupFree(ch + rest)
  {
    if ch == [] {
      assert ch + rest == rest;
    } else {
      PlainPrefix(ch[1..], rest);
      var e := ch + rest;
      assert e[0] == ch[0];
      assert e[1..] == ch[1..] + rest;
      assert e[0] != '<' && e[0] != '>' && e[0] != '\n' && MarkupFree(e[1..]);
    }
  }

  /** In a markup-free text there is no newline, a `<` opens a `<br/>`
      and a `>` closes one. */
  lemma {:induction false} MarkupFreeAt(e: string, i: nat)
    requires MarkupFree(e) && i < |e|
    ensures e[i] != '\n'
    ensures e[i] == '<' ==> OccursAt(e, "<br/>", i)
    ensures e[i] == '>' ==> OccursAt(e, "<br/>", i - 4)
    decreases |e|
  {
    if StartsWith(e, "<br/>") && MarkupFree(e[5..]) {
      if i >= 5 {
        MarkupFreeAt(e[5..], i - 5);
        MarkupFreeShift(e, 5, i);
      } else {
        assert e[..5] == "<br/>";
        assert e[i] == "<br/>"[i];
      }
    } else if i >= 1 {
      MarkupFreeAt(e[1..], i - 1);
      MarkupFreeShift(e, 1, i);
    }
  }

  /** The facts about position `i - k` of `e[k..]` carry over to position
      `i` of `e`. */
  lemma MarkupFreeShift(e: string, k: nat, i: nat)
    requires k <= i < |e|
    requires var t := e[k..];
      && t[i - k] != '\n'
      && (t[i - k] == '<' ==> OccursAt(t, "<br/>", i - k))
      && (t[i - k] == '>' ==> OccursAt(t, "<br/>", i - k - 4))
    ensures e[i] != '\n'
    ensures e[i] == '<' ==> OccursAt(e, "<br/>", i)
    ensures e[i] == '>' ==> OccursAt(e, "<br/>", i - 4)
  {
    var t := e[k..];
    assert e[i] == t[i - k];
    if e[i] == '<' {
      assert e[i..i + 5] == t[i - k..i - k + 5];
    }
    if e[i] == '>' {
      assert e[i - 4..i + 1] == t[i - k - 4..i - k + 1];
    }
  }

  /** Escaped body text contains no newline, and no `<` or `>` other than
      those of an inserted `<br/>`. */
  lemma EscapedBodyIsClean(p: string)
    ensures forall i :: 0 <= i < |Escape(p)| ==> Escape(p)[i] != '\n'
    ensures forall i :: 0 <= i < |Escape(p)| && Escape(p)[i] == '<' ==> OccursAt(Escape(p), "<br/>", i)
    ensures forall i :: 0 <= i < |Escape(p)| && Escape(p)[i] == '>' ==> OccursAt(Escape(p), "<br/>", i - 4)
  {
    EscapeIsChunked(p);
    EscapedMarkupFree(p);
    forall i | 0 <= i < |Escape(p)|
      ensures Escape(p)[i] != '\n'
      ensures Escape(p)[i] == '<' ==> OccursAt(Escape(p), "<br/>", i)
      ensures Escape(p)[i] == '>' ==> OccursAt(Escape(p), "<br/>", i - 4)
    {
      MarkupFreeAt(Escape(p), i);
    }
  }
}
