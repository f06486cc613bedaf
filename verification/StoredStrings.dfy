/** What any string at all reads as when a stored identifier is parsed. */
module StoredStrings {
  import opened Identity

  /** A stored string is a list of these, and perhaps an escape with nothing after it. */
  datatype Token = Literal(c: char) | Escaped(c: char) | Break

  predicate IsToken(t: Token) {
    t.Literal? ==> t.c != ESCAPE && t.c != SEPARATOR
  }

  function Spelled(t: Token): string {
    match t
    case Literal(c) => [c]
    case Escaped(c) => [ESCAPE, c]
    case Break => [SEPARATOR]
  }

  function Text(tokens: seq<Token>): string {
    if tokens == [] then "" else Spelled(tokens[0]) + Text(tokens[1..])
  }

  /** The runs of characters between the breaks. */
  function Runs(tokens: seq<Token>): (r: seq<string>)
    ensures r != []
  {
    if tokens == [] then [""]
    else
      var rest := Runs(tokens[1..]);
      match tokens[0]
      case Literal(c) => [[c] + rest[0]] + rest[1..]
      case Escaped(c) => [[c] + rest[0]] + rest[1..]
      case Break => [""] + rest
  }

  lemma {:induction false} ScanTokens(tokens: seq<Token>, tail: string, elements: seq<string>, current: string)
    requires (forall t :: t in tokens ==> IsToken(t)) && (tail == "" || tail == [ESCAPE])
    ensures var runs := Runs(tokens);
            Scan(Text(tokens) + tail, elements, current, false) == elements + [current + runs[0]] + runs[1..]
  {
    if tokens == [] {
      ScanEnd(tail, elements, current);
    } else {
      var rest := Text(tokens[1..]) + tail;
      assert IsToken(tokens[0]);
      assert Text(tokens) + tail == Spelled(tokens[0]) + rest;
      ScanToken(tokens[0], rest, elements, current);
      hide Scan, Text;
      if tokens[0].Break? {
        ScanTokens(tokens[1..], tail, elements + [current], "");
        NewRun(elements, current, Runs(tokens[1..]));
      } else {
        ScanTokens(tokens[1..], tail, elements, current + [tokens[0].c]);
        assert current + [tokens[0].c] + Runs(tokens[1..])[0] == current + ([tokens[0].c] + Runs(tokens[1..])[0]);
      }
    }
  }

  lemma NewRun(elements: seq<string>, current: string, runs: seq<string>)
    requires runs != []
    ensures elements + [current] + ["" + runs[0]] + runs[1..]
            == elements + [current + ([""] + runs)[0]] + ([""] + runs)[1..]
  {
    assert "" + runs[0] == runs[0] && current + "" == current && ([""] + runs)[1..] == runs;
    assert [runs[0]] + runs[1..] == runs;
  }

  lemma ScanEnd(tail: string, elements: seq<string>, current: string)
    requires tail == "" || tail == [ESCAPE]
    ensures Scan("" + tail, elements, current, false) == elements + [current + ""] + []
  {
    assert "" + tail == tail && current + "" == current;
    assert tail != "" ==> tail[1..] == "";
  }

  lemma ScanToken(t: Token, rest: string, elements: seq<string>, current: string)
    requires IsToken(t)
    ensures t.Break? ==>
              Scan(Spelled(t) + rest, elements, current, false) == Scan(rest, elements + [current], "", false)
    ensures !t.Break? ==>
              Scan(Spelled(t) + rest, elements, current, false) == Scan(rest, elements, current + [t.c], false)
  {
    var s := Spelled(t) + rest;
    if t.Escaped? {
      assert s[1..] == [t.c] + rest && s[1..][1..] == rest;
    } else {
      assert s[1..] == rest;
    }
  }

  lemma {:induction false} Tokenize(s: string) returns (tokens: seq<Token>, tail: string)
    ensures (forall t :: t in tokens ==> IsToken(t)) && (tail == "" || tail == [ESCAPE]) && s == Text(tokens) + tail
    decreases |s|
  {
    if s == "" || s == [ESCAPE] {
      tokens, tail := [], s;
    } else {
      var first, n := if s[0] == ESCAPE then Escaped(s[1]) else if s[0] == SEPARATOR then Break else Literal(s[0]),
        if s[0] == ESCAPE then 2 else 1;
      var rest;
      rest, tail := Tokenize(s[n..]);
      tokens := [first] + rest;
      assert s == s[..n] + s[n..] && tokens[1..] == rest;
    }
  }

  /** Any string at all, canonical or not, reads as the runs of characters between its unescaped
      separators: an escape makes the character after it literal, whatever it is, and a last escape with
      nothing after it is dropped. */
  lemma StringsReadAsRuns(s: string) returns (tokens: seq<Token>, tail: string)
    ensures (forall t :: t in tokens ==> IsToken(t)) && (tail == "" || tail == [ESCAPE])
    ensures s == Text(tokens) + tail && Elements(s) == Runs(tokens)
  {
    tokens, tail := Tokenize(s);
    ScanTokens(tokens, tail, [], "");
    var runs := Runs(tokens);
    assert "" + runs[0] == runs[0] && [] + [runs[0]] + runs[1..] == runs;
  }

  /** A key that is scoped by has the declared arity, and it is the identifier's own: the composite's
      elements, the bare string of a single column, or what the stored string of several parses to. */
  lemma ScopedKeyIsOwn(arity: nat, id: Identifier, key: seq<string>)
    ensures SubjectValues(arity, id) == Values(key)
            <==> |key| == arity && (match id
                                    case Composite(values) => key == values
                                    case Single(s) => if arity == 1 then key == [s] else Parse(s) == Key(key))
    ensures SubjectValues(arity, id) == Malformed
            <==> id.Single? && arity > 1 && exists i :: 0 <= i < |Elements(id.value)| && Elements(id.value)[i] == ""
  {
    if id.Single? && arity > 1 {
      var tokens, tail := StringsReadAsRuns(id.value);
    }
  }
}
