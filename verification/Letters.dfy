/** Sources of one letter, and the options the example builds are run with. */
module Letters {
  import opened SourceText
  import opened Actions

  predicate Letter(text: string) {
    |text| == 1 && !IsSpace(text[0]) && text[0] != '#'
  }

  lemma LetterText(text: string)
    requires Letter(text)
    ensures Semantic(Universal(text)) == text + "\n" && !AsksToFail(text)
  {
    assert text[1..] == "";
    assert Universal(text) == text;
    assert FirstBreak(text) == 1;
    assert SplitLines(text) == [text];
    assert !IsComment(text);
    assert [text][1..] == [];
    assert DropComments([text]) == [text] + DropComments([]);
  }

  lemma EmptyText()
    ensures Semantic("") == "\n"
  {
    assert SplitLines("") == [];
  }

  const CACHED: Options := Options(Context("", "", map[]), true, false, map[])
}
