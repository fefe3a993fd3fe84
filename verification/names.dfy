/**
 Player-name abbreviation (`shorten`): the first space-separated token of a
 name becomes its initial and a dot, unless it is already short or has no
 lower-case letter (initials such as "CJ" or "P.J." stay as they are).
 */
module Names {
  import opened Basics

  /** Lower-case test of `str.islower` on one character, restricted to ASCII. */
  predicate IsLower(c: char) { 'a' <= c <= 'z' }

  predicate HasLower(token: string)
  {
    exists i :: 0 <= i < |token| && IsLower(token[i])
  }

  /** The token is abbreviated: longer than two characters, some lower case. */
  predicate Abbreviable(token: string)
  {
    |token| > 2 && HasLower(token)
  }

  function Abbreviate(token: string): string
  {
    if Abbreviable(token) then [token[0], '.'] else token
  }

  /** `shorten(name)`: abbreviate the first token, keep the others. */
  function Shorten(name: string): (r: string)
    ensures var tokens := Split(name, ' ');
            Split(r, ' ') == [Abbreviate(tokens[0])] + tokens[1..]
    ensures |r| <= |name|
    ensures var first := Split(name, ' ')[0];
            && (!Abbreviable(first) <==> r == name)
            && (Abbreviable(first) ==> r == [name[0], '.'] + name[|first|..])
    ensures forall i :: 0 <= i < |r| ==> r[i] in name || r[i] == '.'
  {
    var tokens := Split(name, ' ');
    var result := Join([Abbreviate(tokens[0])] + tokens[1..], " ");
    ShortenFacts(name, tokens, result);
    assert forall i :: 0 <= i < |result| ==> result[i] in name || result[i] == '.' by {
      if Abbreviable(tokens[0]) {
        forall i | 0 <= i < |result|
          ensures result[i] in name || result[i] == '.'
        {
          if i >= 2 {
            assert result[i] == name[|tokens[0]| + i - 2];
          }
        }
      }
    }
    result
  }

  lemma ShortenFacts(name: string, tokens: seq<string>, result: string)
    requires tokens == Split(name, ' ')
    requires result == Join([Abbreviate(tokens[0])] + tokens[1..], " ")
    ensures Split(result, ' ') == [Abbreviate(tokens[0])] + tokens[1..]
    ensures |result| <= |name|
    ensures !Abbreviable(tokens[0]) <==> result == name
    ensures Abbreviable(tokens[0]) ==> result == [name[0], '.'] + name[|tokens[0]|..]
  {
    var first := tokens[0];
    var tail := JoinTail(tokens[1..], " ");
    var parts := [Abbreviate(first)] + tokens[1..];
    JoinSplit(name, ' ');
    assert name == first + tail;
    assert parts[1..] == tokens[1..];
    assert result == Abbreviate(first) + tail;
    assert ' ' !in Abbreviate(first);
    assert FreeOf(parts, ' ');
    SplitJoin(parts, ' ');
    if Abbreviable(first) {
      assert name[0] == first[0];
      assert name[|first|..] == tail;
      assert |result| < |name|;
    }
  }

  /** Shortening an already shortened name changes nothing. */
  lemma ShortenIdempotent(name: string)
    ensures Shorten(Shorten(name)) == Shorten(name)
  {
    var tokens := Split(name, ' ');
    var once := Shorten(name);
    assert Split(once, ' ')[0] == Abbreviate(tokens[0]);
    assert !Abbreviable(Abbreviate(tokens[0]));
  }
}
