// The stub renderer: one validated localization file, seen as its entries
// in iteration order, becomes the lines of a declaration file.
module Stub {
  import opened JsText
  import opened CommentEscape

  // One entry of a `.loc.json` file: the string's name, the translator's
  // comment and the translated value.
  datatype Entry = Entry(key: string, comment: string, value: string)

  const Header: string :=
    "// This file was generated by a tool. Modifying it will produce unexpected behavior"
  const DocOpen: string := "/**"
  const DocLinePrefix: string := " * "
  const DocClose: string := " */"
  const DeclPrefix: string := "export declare const "
  const DeclSuffix: string := ": string;"

  function DocLine(comment: string): string {
    DocLinePrefix + Escape(comment)
  }

  // The line ` * <escaped comment>` of a doc block holds no `*/`: the
  // escaped comment holds none, and the prefix ends in a space, so it
  // cannot join with the comment to form one.
  lemma DocLineHasNoClose(comment: string)
    ensures !ContainsClose(DocLine(comment))
  {
    var e := Escape(comment);
    EscapeRemovesCloses(comment);
    forall i ensures !ClosesAt(DocLine(comment), i) {
      if i >= 3 && ClosesAt(DocLine(comment), i) {
        assert ClosesAt(e, i - 3);
      }
    }
  }

  function DeclLine(key: string): string {
    DeclPrefix + key + DeclSuffix
  }

  // The lines pushed for one entry: a doc block when the comment is not
  // blank, then the declaration and an empty line.
  function EntryLines(e: Entry): seq<string> {
    (if IsBlank(e.comment) then [] else [DocOpen, DocLine(e.comment), DocClose])
    + [DeclLine(e.key), ""]
  }

  function RenderEntries(es: seq<Entry>): seq<string> {
    if |es| == 0 then [] else EntryLines(es[0]) + RenderEntries(es[1..])
  }

  // The whole stub, before its lines are joined.
  function Render(es: seq<Entry>): (lines: seq<string>)
    ensures |lines| >= 2 && lines[0] == Header && lines[1] == ""
  {
    [Header, ""] + RenderEntries(es)
  }

  // The push loop of the generator, line for line.
  method RenderLines(es: seq<Entry>) returns (lines: seq<string>)
    ensures lines == Render(es)
  {
    lines := [Header, ""];
    var i := 0;
    while i < |es|
      invariant 0 <= i <= |es|
      invariant lines == [Header, ""] + RenderEntries(es[..i])
    {
      var e := es[i];
      ghost var before := lines;
      if !IsBlank(e.comment) {
        lines := lines + [DocOpen, DocLine(e.comment), DocClose];
      }
      lines := lines + [DeclLine(e.key), ""];
      assert lines == before + EntryLines(e);
      RenderEntriesSingle(e);
      RenderEntriesAppend(es[..i], [e]);
      assert es[..i + 1] == es[..i] + [e];
      i := i + 1;
    }
    assert es[..i] == es;
  }

  lemma RenderEntriesSingle(e: Entry)
    ensures RenderEntries([e]) == EntryLines(e)
  {
    assert [e][1..] == [];
  }

  lemma {:induction false} RenderEntriesAppend(a: seq<Entry>, b: seq<Entry>)
    ensures RenderEntries(a + b) == RenderEntries(a) + RenderEntries(b)
    decreases |a|
  {
    if |a| > 0 {
      assert (a + b)[1..] == a[1..] + b;
      RenderEntriesAppend(a[1..], b);
    } else {
      assert a + b == b;
    }
  }

  // Number of lines an entry contributes: 5 with a doc block, 2 without.
  function LineCost(e: Entry): nat {
    if IsBlank(e.comment) then 2 else 5
  }

  function TotalCost(es: seq<Entry>): nat {
    if |es| == 0 then 0 else LineCost(es[0]) + TotalCost(es[1..])
  }

  lemma {:induction false} TotalCostAppend(a: seq<Entry>, b: seq<Entry>)
    ensures TotalCost(a + b) == TotalCost(a) + TotalCost(b)
    decreases |a|
  {
    if |a| > 0 {
      assert (a + b)[1..] == a[1..] + b;
      TotalCostAppend(a[1..], b);
    } else {
      assert a + b == b;
    }
  }

  lemma {:induction false} RenderEntriesLength(es: seq<Entry>)
    ensures |RenderEntries(es)| == TotalCost(es)
    decreases |es|
  {
    if |es| > 0 {
      RenderEntriesLength(es[1..]);
    }
  }

  // Two header lines, then two lines per entry and three more for each
  // entry whose comment is not blank.
  lemma RenderLineCount(es: seq<Entry>)
    ensures |Render(es)| == 2 + TotalCost(es)
  {
    RenderEntriesLength(es);
  }

  // Index in the stub of the first line of entry `i`.
  function Offset(es: seq<Entry>, i: nat): nat
    requires i <= |es|
  {
    2 + TotalCost(es[..i])
  }

  // Entry `i`'s lines sit, contiguous and unchanged, at its offset.
  lemma EntryPlacement(es: seq<Entry>, i: nat)
    requires i < |es|
    ensures Offset(es, i) + LineCost(es[i]) == Offset(es, i + 1)
    ensures Offset(es, i + 1) <= |Render(es)|
    ensures Render(es)[Offset(es, i)..Offset(es, i + 1)] == EntryLines(es[i])
  {
    var pre, mid, post := es[..i], [es[i]], es[i + 1..];
    assert es == pre + mid + post;
    assert es[..i + 1] == pre + mid;
    TotalCostAppend(pre, mid);
    RenderEntriesAppend(pre + mid, post);
    RenderEntriesAppend(pre, mid);
    RenderEntriesLength(pre);
    RenderEntriesLength(mid);
    assert RenderEntries(mid) == EntryLines(es[i]) by {
      assert mid[1..] == [];
    }
    var lines := Render(es);
    assert lines == [Header, ""] + RenderEntries(pre) + EntryLines(es[i]) + RenderEntries(post);
  }

  // The line just before any entry's lines is empty: the header's blank
  // line for the first entry, the previous entry's trailing one otherwise.
  lemma LineBeforeEntryIsEmpty(es: seq<Entry>, i: nat)
    requires i < |es|
    ensures 0 < Offset(es, i) <= |Render(es)| && Render(es)[Offset(es, i) - 1] == ""
  {
    EntryPlacement(es, i);
    if i == 0 {
      assert es[..0] == [];
    } else {
      EntryPlacement(es, i - 1);
      var block := Render(es)[Offset(es, i - 1)..Offset(es, i)];
      assert block[|block| - 1] == "";
    }
  }

  // A doc block stands immediately before an entry's declaration if and
  // only if the entry's comment is not blank; the declaration is followed
  // by an empty line.
  lemma DocBlockIffNonBlank(es: seq<Entry>, i: nat)
    requires i < |es|
    ensures var d := Offset(es, i + 1) - 2;
      && 2 <= d && d + 1 < |Render(es)|
      && Render(es)[d] == DeclLine(es[i].key)
      && Render(es)[d + 1] == ""
      && (Render(es)[d - 1] == DocClose <==> !IsBlank(es[i].comment))
      && (!IsBlank(es[i].comment) ==>
            5 <= d && Render(es)[d - 3..d] == [DocOpen, DocLine(es[i].comment), DocClose])
  {
    EntryPlacement(es, i);
    var lines := Render(es);
    var o := Offset(es, i);
    var block := lines[o..Offset(es, i + 1)];
    if IsBlank(es[i].comment) {
      LineBeforeEntryIsEmpty(es, i);
      assert lines[o] == block[0];
      assert lines[o + 1] == block[1];
    } else {
      assert lines[o + 3] == block[3];
      assert lines[o + 4] == block[4];
      assert lines[o..o + 3] == block[..3];
    }
  }

  // The stub depends on each entry's key and comment, never on its value.
  lemma {:induction false} RenderIgnoresValues(es: seq<Entry>, fs: seq<Entry>)
    requires |es| == |fs|
    requires forall i :: 0 <= i < |es| ==> es[i].key == fs[i].key && es[i].comment == fs[i].comment
    ensures Render(es) == Render(fs)
  {
    RenderEntriesIgnoreValues(es, fs);
  }

  lemma {:induction false} RenderEntriesIgnoreValues(es: seq<Entry>, fs: seq<Entry>)
    requires |es| == |fs|
    requires forall i :: 0 <= i < |es| ==> es[i].key == fs[i].key && es[i].comment == fs[i].comment
    ensures RenderEntries(es) == RenderEntries(fs)
    decreases |es|
  {
    if |es| > 0 {
      assert EntryLines(es[0]) == EntryLines(fs[0]);
      RenderEntriesIgnoreValues(es[1..], fs[1..]);
    }
  }

}
