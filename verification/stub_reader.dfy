// A reader for the generated stub: it recovers, from the lines alone, each
// declared name and the text of the doc block in front of it. Reading back
// what the renderer wrote is how the model states that every entry is
// declared exactly once, in order, with its comment gated and escaped.
module StubReader {
  import opened Wrappers
  import opened JsText
  import opened CommentEscape
  import opened Stub

  // A declaration as the pushed lines carry it: the exported name and
  // the doc text above it, if any.
  datatype Declaration = Declaration(key: string, doc: Option<string>)

  predicate IsDeclLine(line: string) {
    && |line| >= |DeclPrefix| + |DeclSuffix|
    && line[..|DeclPrefix|] == DeclPrefix
    && line[|line| - |DeclSuffix|..] == DeclSuffix
  }

  function DeclKey(line: string): string
    requires IsDeclLine(line)
  {
    line[|DeclPrefix|..|line| - |DeclSuffix|]
  }

  predicate IsDocLine(line: string) {
    |line| >= |DocLinePrefix| && line[..|DocLinePrefix|] == DocLinePrefix
  }

  function DocText(line: string): string
    requires IsDocLine(line)
  {
    line[|DocLinePrefix|..]
  }

  // Declarations after the header: each is either `/**`, a doc line, ` */`,
  // a declaration and an empty line, or just a declaration and an empty line.
  function ParseBody(lines: seq<string>): Option<seq<Declaration>>
    decreases |lines|
  {
    if |lines| == 0 then Some([])
    else if lines[0] == DocOpen then
      if |lines| >= 5 && IsDocLine(lines[1]) && lines[2] == DocClose
         && IsDeclLine(lines[3]) && lines[4] == ""
      then
        match ParseBody(lines[5..])
        case None => None
        case Some(rest) => Some([Declaration(DeclKey(lines[3]), Some(DocText(lines[1])))] + rest)
      else None
    else if |lines| >= 2 && IsDeclLine(lines[0]) && lines[1] == "" then
      match ParseBody(lines[2..])
      case None => None
      case Some(rest) => Some([Declaration(DeclKey(lines[0]), None)] + rest)
    else None
  }

  function Parse(lines: seq<string>): Option<seq<Declaration>> {
    if |lines| >= 2 && lines[0] == Header && lines[1] == "" then ParseBody(lines[2..])
    else None
  }

  // What the stub should say about an entry.
  function Summary(e: Entry): Declaration {
    Declaration(e.key, if IsBlank(e.comment) then None else Some(Escape(e.comment)))
  }

  function Summaries(es: seq<Entry>): (ds: seq<Declaration>)
    ensures |ds| == |es|
    ensures forall i :: 0 <= i < |es| ==> ds[i] == Summary(es[i])
  {
    seq(|es|, i requires 0 <= i < |es| => Summary(es[i]))
  }

  lemma DeclLineReadsBack(key: string)
    ensures IsDeclLine(DeclLine(key)) && DeclKey(DeclLine(key)) == key
    ensures DeclLine(key) != DocOpen
  {
    var line := DeclLine(key);
    assert line[..|DeclPrefix|] == DeclPrefix;
    assert line[|line| - |DeclSuffix|..] == DeclSuffix;
    assert line[|DeclPrefix|..|line| - |DeclSuffix|] == key;
    assert line[0] == 'e';
  }

  lemma DocLineReadsBack(comment: string)
    ensures IsDocLine(DocLine(comment)) && DocText(DocLine(comment)) == Escape(comment)
  {
    var line := DocLine(comment);
    assert line[..|DocLinePrefix|] == DocLinePrefix;
    assert line[|DocLinePrefix|..] == Escape(comment);
  }

  lemma {:induction false} ParseRenderedBody(es: seq<Entry>)
    ensures ParseBody(RenderEntries(es)) == Some(Summaries(es))
    decreases |es|
  {
    if |es| > 0 {
      var e := es[0];
      var lines := RenderEntries(es);
      var tail := RenderEntries(es[1..]);
      ParseRenderedBody(es[1..]);
      DeclLineReadsBack(e.key);
      assert Summaries(es) == [Summary(e)] + Summaries(es[1..]);
      if IsBlank(e.comment) {
        assert lines == [DeclLine(e.key), ""] + tail;
        assert lines[2..] == tail;
      } else {
        DocLineReadsBack(e.comment);
        assert lines == [DocOpen, DocLine(e.comment), DocClose, DeclLine(e.key), ""] + tail;
        assert lines[5..] == tail;
      }
    }
  }

  // Reading the stub back yields one declaration per entry, in entry order,
  // each carrying the escaped comment exactly when the comment is not blank.
  lemma ParseRender(es: seq<Entry>)
    ensures Parse(Render(es)) == Some(Summaries(es))
  {
    ParseRenderedBody(es);
    assert Render(es)[2..] == RenderEntries(es);
  }

  // The declared names are the entries' keys, in the same order, none added
  // and none dropped; a doc block is present exactly for the non-blank
  // comments, and its text can never close the comment early.
  lemma DeclarationsFollowEntries(es: seq<Entry>)
    ensures Parse(Render(es)).Some?
    ensures var ds := Parse(Render(es)).value;
      && |ds| == |es|
      && (forall i :: 0 <= i < |es| ==> ds[i].key == es[i].key)
      && (forall i :: 0 <= i < |es| ==> (ds[i].doc.Some? <==> !IsBlank(es[i].comment)))
      && (forall i :: 0 <= i < |es| && ds[i].doc.Some? ==> !ContainsClose(ds[i].doc.value))
  {
    ParseRender(es);
    forall i | 0 <= i < |es| && !IsBlank(es[i].comment)
      ensures !ContainsClose(Escape(es[i].comment))
    {
      EscapeRemovesCloses(es[i].comment);
    }
  }

}
