/** Subject identifiers, their canonical storage string, and the parser that reads it back. */
module Identity {

  const SEPARATOR: char := '\U{1F}'
  const ESCAPE: char := '\U{1B}'

  /** A bare string for a single-column subject, or an ordered tuple of column values. */
  datatype Identifier = Single(value: string) | Composite(values: seq<string>)

  datatype Parsed = Key(values: seq<string>) | Refused

  /** What the composite model accepts: at least one element, none empty. */
  predicate ValidKey(values: seq<string>) {
    values != [] && forall i :: 0 <= i < |values| ==> values[i] != ""
  }

  // --- serialising -------------------------------------------------------

  function Replace(s: string, c: char, to: string): string {
    if s == "" then "" else (if s[0] == c then to else [s[0]]) + Replace(s[1..], c, to)
  }

  /** Two successive replace passes: escapes are doubled first, then separators are escaped. */
  function EscapeElement(value: string): string {
    Replace(Replace(value, ESCAPE, [ESCAPE, ESCAPE]), SEPARATOR, [ESCAPE, SEPARATOR])
  }

  function JoinElements(values: seq<string>): string
    requires values != []
  {
    if |values| == 1 then EscapeElement(values[0])
    else EscapeElement(values[0]) + [SEPARATOR] + JoinElements(values[1..])
  }

  function Canonical(id: Identifier): string
    requires id.Composite? ==> id.values != []
  {
    match id
    case Single(value) => value
    case Composite(values) => JoinElements(values)
  }

  // --- parsing -----------------------------------------------------------

  /** The one-pass automaton: finished elements, the open element, and whether the last
      character was an escape. */
  function Scan(s: string, elements: seq<string>, current: string, escaped: bool): seq<string>
    decreases |s|
  {
    if s == "" then elements + [current]
    else if escaped then Scan(s[1..], elements, current + [s[0]], false)
    else if s[0] == ESCAPE then Scan(s[1..], elements, current, true)
    else if s[0] == SEPARATOR then Scan(s[1..], elements + [current], "", false)
    else Scan(s[1..], elements, current + [s[0]], false)
  }

  function Elements(s: string): seq<string> {
    Scan(s, [], "", false)
  }

  /** Parses a stored string. It is the inverse of `Canonical` on every composite key, and it
      refuses exactly the strings one of whose elements is empty. */
  method ParseCanonical(serialized: string) returns (r: Parsed)
    ensures forall values :: ValidKey(values) && Canonical(Composite(values)) == serialized ==> r == Key(values)
    ensures r.Refused? <==> exists i :: 0 <= i < |Elements(serialized)| && Elements(serialized)[i] == ""
    ensures r.Key? ==> ValidKey(r.values) && r.values == Elements(serialized)
  {
    var elements, current, escaped := [], "", false;
    var i := 0;
    while i < |serialized|
      invariant 0 <= i <= |serialized|
      invariant Scan(serialized[i..], elements, current, escaped) == Elements(serialized)
    {
      var c := serialized[i];
      assert serialized[i..][1..] == serialized[i + 1..];
      if escaped {
        current := current + [c];
        escaped := false;
      } else if c == ESCAPE {
        escaped := true;
      } else if c == SEPARATOR {
        elements := elements + [current];
        current := "";
      } else {
        current := current + [c];
      }
      i := i + 1;
    }
    elements := elements + [current];
    forall values | ValidKey(values) && Canonical(Composite(values)) == serialized
      ensures elements == values
    {
      RoundTrip(values);
    }
    r := if exists k :: 0 <= k < |elements| && elements[k] == "" then Refused else Key(elements);
  }

  /** Parsing, as a function of the string (what `ParseCanonical` computes). */
  function Parse(s: string): Parsed {
    if ValidKey(Elements(s)) then Key(Elements(s)) else Refused
  }

  // --- round trip --------------------------------------------------------

  /** The escaping a single pass would do. */
  function EscapeOnce(value: string): string {
    if value == "" then ""
    else (if value[0] == ESCAPE || value[0] == SEPARATOR then [ESCAPE, value[0]] else [value[0]])
         + EscapeOnce(value[1..])
  }

  lemma ReplaceConcat(a: string, b: string, c: char, to: string)
    ensures Replace(a + b, c, to) == Replace(a, c, to) + Replace(b, c, to)
  {
    if a == "" {
      assert a + b == b;
    } else {
      assert (a + b)[1..] == a[1..] + b;
      ReplaceConcat(a[1..], b, c, to);
    }
  }

  /** The two replace passes never re-escape an escaped separator: they equal one pass. */
  lemma {:induction false} EscapeIsOnePass(value: string)
    ensures EscapeElement(value) == EscapeOnce(value)
  {
    if value != "" {
      var head := if value[0] == ESCAPE then [ESCAPE, ESCAPE] else [value[0]];
      ReplaceConcat(head, Replace(value[1..], ESCAPE, [ESCAPE, ESCAPE]), SEPARATOR, [ESCAPE, SEPARATOR]);
      EscapeIsOnePass(value[1..]);
      if value[0] == ESCAPE {
        assert head[1..] == [ESCAPE];
        assert Replace([ESCAPE], SEPARATOR, [ESCAPE, SEPARATOR]) == [ESCAPE];
      } else {
        assert head[1..] == "";
      }
    }
  }

  /** Reading an escaped element restores it and leaves the automaton outside an escape. */
  lemma {:induction false} ScanEscaped(value: string, rest: string, elements: seq<string>, current: string)
    ensures Scan(EscapeOnce(value) + rest, elements, current, false) == Scan(rest, elements, current + value, false)
  {
    if value == "" {
      assert EscapeOnce(value) + rest == rest;
      assert current + value == current;
    } else {
      var s := EscapeOnce(value) + rest;
      var tail := EscapeOnce(value[1..]) + rest;
      if value[0] == ESCAPE || value[0] == SEPARATOR {
        assert s[1..] == [value[0]] + tail;
        assert s[1..][1..] == tail;
      } else {
        assert s[1..] == tail;
      }
      ScanEscaped(value[1..], rest, elements, current + [value[0]]);
      assert current + [value[0]] + value[1..] == current + value;
    }
  }

  lemma {:induction false} ScanJoined(values: seq<string>, elements: seq<string>)
    requires values != []
    ensures Scan(JoinElements(values), elements, "", false) == elements + values
  {
    EscapeIsOnePass(values[0]);
    if |values| == 1 {
      ScanEscaped(values[0], "", elements, "");
      assert EscapeOnce(values[0]) + "" == EscapeOnce(values[0]);
      assert "" + values[0] == values[0];
      assert [values[0]] == values;
    } else {
      var rest := [SEPARATOR] + JoinElements(values[1..]);
      assert JoinElements(values) == EscapeOnce(values[0]) + rest;
      ScanEscaped(values[0], rest, elements, "");
      assert "" + values[0] == values[0];
      assert rest[1..] == JoinElements(values[1..]);
      ScanJoined(values[1..], elements + [values[0]]);
      assert elements + [values[0]] + values[1..] == elements + values;
    }
  }

  /** Every composite key survives serialising and parsing, whatever characters it holds. */
  lemma RoundTrip(values: seq<string>)
    requires values != []
    ensures Elements(Canonical(Composite(values))) == values
    ensures ValidKey(values) ==> Parse(Canonical(Composite(values))) == Key(values)
  {
    ScanJoined(values, []);
    assert [] + values == values;
  }

  /** Distinct composite keys, of any arities, have distinct canonical strings. */
  lemma CompositeInjective(a: seq<string>, b: seq<string>)
    requires a != [] && b != []
    ensures Canonical(Composite(a)) == Canonical(Composite(b)) <==> a == b
  {
    RoundTrip(a);
    RoundTrip(b);
  }

  // --- what an engine scopes by ------------------------------------------

  datatype KeyResult = Values(values: seq<string>) | ArityMismatch | Malformed

  /** The key an engine matches for an identifier against `arity` declared subject columns. */
  function SubjectValues(arity: nat, id: Identifier): KeyResult {
    var values :=
      match id
      case Composite(vs) => Key(vs)
      case Single(s) => if arity > 1 then Parse(s) else Key([s]);
    if values.Refused? then Malformed
    else if |values.values| != arity then ArityMismatch
    else Values(values.values)
  }

  predicate Plain(s: string) {
    ESCAPE !in s && SEPARATOR !in s
  }

  lemma {:induction false} EscapeFixedPoint(s: string)
    ensures |EscapeElement(s)| >= |s|
    ensures EscapeElement(s) == s <==> Plain(s)
  {
    EscapeIsOnePass(s);
    if s != "" {
      EscapeFixedPoint(s[1..]);
      EscapeIsOnePass(s[1..]);
      assert s == [s[0]] + s[1..];
      if s[0] != ESCAPE && s[0] != SEPARATOR {
        assert EscapeOnce(s)[1..] == EscapeOnce(s[1..]);
      }
    }
  }

  /** A later operation that reads the stored string scopes by the same key as the operation
      that wrote it, exactly when the key has several columns or its single value holds neither
      reserved character. */
  lemma StoredKeyScopesAlike(values: seq<string>)
    requires ValidKey(values)
    ensures SubjectValues(|values|, Single(Canonical(Composite(values)))) == SubjectValues(|values|, Composite(values))
            <==> |values| > 1 || Plain(values[0])
  {
    RoundTrip(values);
    EscapeFixedPoint(values[0]);
    if |values| == 1 {
      assert values == [values[0]];
    }
  }

  /** Two identifiers recorded under one stored string name one key when several columns are
      declared, so no completion group or audit trail mixes two subjects. */
  lemma SharedStringSharesKey(arity: nat, a: Identifier, b: Identifier)
    requires arity > 1
    requires SubjectValues(arity, a).Values? && SubjectValues(arity, b).Values?
    requires a.Composite? ==> ValidKey(a.values)
    requires b.Composite? ==> ValidKey(b.values)
    requires Canonical(a) == Canonical(b)
    ensures SubjectValues(arity, a) == SubjectValues(arity, b)
  {
    if a.Composite? { RoundTrip(a.values); }
    if b.Composite? { RoundTrip(b.values); }
  }

  /** With one declared column two different subjects can share a stored string: the claim that
      distinct keys always serialise apart needs both identifiers to be of the same form. */
  lemma SingleColumnCollision()
    ensures exists a: Identifier, b: Identifier ::
              && a.Single? && b.Composite? && ValidKey(b.values)
              && Canonical(a) == Canonical(b)
              && SubjectValues(1, a).Values? && SubjectValues(1, b).Values?
              && SubjectValues(1, a) != SubjectValues(1, b)
  {
    var b := Composite([[ESCAPE]]);
    EscapeIsOnePass([ESCAPE]);
    EscapeFixedPoint([ESCAPE]);
    var a := Single(Canonical(b));
    assert a.value != [ESCAPE];
    assert SubjectValues(1, a) == Values([a.value]);
    assert SubjectValues(1, b) == Values([[ESCAPE]]);
    assert [a.value][0] != [[ESCAPE]][0];
    assert ValidKey(b.values) && Canonical(a) == Canonical(b);
  }

  /** With one declared column, a bare string and a one-element composite that are both recorded
      under the same string name the same subject exactly when that element is free of reserved
      characters. */
  lemma SingleColumnAgreement(s: string, value: string)
    requires value != "" && Canonical(Single(s)) == Canonical(Composite([value]))
    ensures SubjectValues(1, Single(s)) == SubjectValues(1, Composite([value])) <==> Plain(value)
  {
    EscapeFixedPoint(value);
    assert SubjectValues(1, Single(s)) == Values([s]);
    if s != value {
      assert [s][0] != [value][0];
    }
  }
}
