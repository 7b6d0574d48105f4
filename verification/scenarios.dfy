// Concrete instances of the renderer's behaviour.
module Scenarios {
  import opened JsText
  import opened CommentEscape
  import opened Stub

  // A terminator inside a comment is rewritten in place. The comment is a
  // parameter pinned by the requires, rather than a literal in the ensures,
  // which keeps the solver from unrolling `Escape` on the literal.
  lemma EscapeExample(s: string)
    requires s == "end */ here"
    ensures Escape(s) == "end *\\/ here"
  {
    EscapeAfterPlainPrefix();
    EscapeAtTerminator("*/ here");
    JoinExample();
  }

  // Kept apart from `EscapeExample`: the same literal equality asserted
  // inline there costs the solver many times more.
  lemma JoinExample()
    ensures "end " + "*\\/ here" == "end *\\/ here"
  {
  }

  lemma EscapeAfterPlainPrefix()
    ensures Escape("end */ here") == "end " + Escape("*/ here")
  {
    assert "end */ here" == "end " + "*/ here";
    NoStarNoClose("end ");
    EscapeConcat("end ", "*/ here");
  }

  lemma EscapeAtTerminator(s: string)
    requires s == "*/ here"
    ensures Escape(s) == "*\\/ here"
  {
    var rest := s[2..];
    assert rest == " here";
    NoStarNoClose(rest);
    EscapeUnchanged(rest);
    assert EscapedClose + " here" == "*\\/ here";
  }

  // `greeting.loc.json` with a commented `HELLO` and an uncommented `BYE`.
  lemma GreetingStub()
    ensures Render([Entry("HELLO", "Greeting", "Hi"), Entry("BYE", "", "Bye")]) ==
      [ Header, "",
        DocOpen, DocLine("Greeting"), DocClose,
        DeclLine("HELLO"), "",
        DeclLine("BYE"), "" ]
  {
    GreetingNotBlank();
    CommentedThenPlain(Entry("HELLO", "Greeting", "Hi"), Entry("BYE", "", "Bye"));
  }

  lemma CommentedThenPlain(a: Entry, b: Entry)
    requires !IsBlank(a.comment) && IsBlank(b.comment)
    ensures Render([a, b]) ==
      [Header, "", DocOpen, DocLine(a.comment), DocClose, DeclLine(a.key), "", DeclLine(b.key), ""]
  {
    RenderEntriesSingle(a);
    RenderEntriesSingle(b);
    RenderEntriesAppend([a], [b]);
    assert [a] + [b] == [a, b];
  }

  lemma GreetingNotBlank()
    ensures !IsBlank("Greeting")
  {
    assert !IsJsWhitespace("Greeting"[0]);
  }

  // The texts of the greeting stub's doc line and declaration lines. As in
  // `EscapeExample`, the comment is pinned by the requires.
  lemma GreetingDocLine(comment: string)
    requires comment == "Greeting"
    ensures DocLine(comment) == " * Greeting"
  {
    NoStarNoClose(comment);
    EscapeUnchanged(comment);
  }

  lemma GreetingDeclLines()
    ensures DeclLine("HELLO") == "export declare const HELLO: string;"
    ensures DeclLine("BYE") == "export declare const BYE: string;"
  {
  }

  // A whitespace-only comment gets no doc block.
  lemma WhitespaceCommentStub()
    ensures Render([Entry("A", "  \t", "x")]) ==
      [Header, "", "export declare const A: string;", ""]
  {
    var es := [Entry("A", "  \t", "x")];
    assert IsBlank(es[0].comment);
    assert DeclLine("A") == "export declare const A: string;";
    assert RenderEntries(es) == EntryLines(es[0]) by {
      assert es[1..] == [];
    }
  }

}
