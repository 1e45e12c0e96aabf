// Splitting text at a separator, the way composite keys are built.
module Text {

  /** A separator that does not occur in the first part splits the text in only one way. */
  lemma SplitUnique(a: string, separator: char, b: string, a': string, b': string)
    requires separator !in a && separator !in a'
    requires a + [separator] + b == a' + [separator] + b'
    ensures a == a' && b == b'
  {
    var text, text' := a + [separator] + b, a' + [separator] + b';
    assert text[|a|] == separator && text'[|a'|] == separator;
    assert a == text[..|a|] && a' == text'[..|a'|];
    assert b == text[|a| + 1..] && b' == text'[|a'| + 1..];
  }
}
