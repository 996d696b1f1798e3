/**
  Key patterns (`KeyPattern` in src/worker/app_meta.rs): a template such as
  "user_{}_{}" in which each `{}` stands for one or more ASCII letters or
  digits and every other character stands for itself. A key matches a pattern
  only when the whole key is covered.
 */
module KeyPatterns {

  /** One piece of a template: a literal character, or a `{}` placeholder. */
  datatype Segment = Literal(c: char) | Placeholder

  /**
    Splits a template into segments, reading `{}` as a placeholder wherever it
    occurs from left to right (the occurrences that `str::replace` rewrites).
   */
  function Tokenize(template: string): (segs: seq<Segment>)
    ensures |segs| <= |template|
  {
    if template == [] then []
    else if |template| >= 2 && template[0] == '{' && template[1] == '}' then
      [Placeholder] + Tokenize(template[2..])
    else
      [Literal(template[0])] + Tokenize(template[1..])
  }

  /** Writes segments back as template text. */
  function Render(segs: seq<Segment>): string
  {
    if segs == [] then []
    else match segs[0]
      case Literal(c) => [c] + Render(segs[1..])
      case Placeholder => "{}" + Render(segs[1..])
  }

  /** No literal `{` directly followed by a literal `}`: such a pair would read back as a placeholder. */
  predicate Canonical(segs: seq<Segment>)
  {
    forall i :: 0 <= i < |segs| - 1 ==> !(segs[i] == Literal('{') && segs[i + 1] == Literal('}'))
  }

  /** Tokenizing loses nothing: the segments render back to the template, and they are canonical. */
  lemma {:induction false} RenderTokenize(template: string)
    ensures Render(Tokenize(template)) == template
    ensures Canonical(Tokenize(template))
  {
    if template == [] {
    } else if |template| >= 2 && template[0] == '{' && template[1] == '}' {
      RenderTokenize(template[2..]);
      assert "{}" + template[2..] == template;
    } else {
      RenderTokenize(template[1..]);
      assert [template[0]] + template[1..] == template;
      var rest := Tokenize(template[1..]);
      if rest != [] && template[0] == '{' {
        assert Render(rest)[0] == template[1];
        assert rest[0] != Literal('}');
      }
    }
  }

  /** Canonical segments are exactly what their rendering tokenizes to. */
  lemma {:induction false} TokenizeRender(segs: seq<Segment>)
    requires Canonical(segs)
    ensures Tokenize(Render(segs)) == segs
  {
    if segs != [] {
      assert Canonical(segs[1..]) by {
        forall i | 0 <= i < |segs[1..]| - 1
          ensures !(segs[1..][i] == Literal('{') && segs[1..][i + 1] == Literal('}'))
        {
          assert segs[1..][i] == segs[i + 1] && segs[1..][i + 1] == segs[i + 2];
        }
      }
      TokenizeRender(segs[1..]);
      var rest := Render(segs[1..]);
      match segs[0]
      case Placeholder =>
        assert ("{}" + rest)[2..] == rest;
      case Literal(c) =>
        assert ([c] + rest)[1..] == rest;
        if c == '{' && rest != [] {
          assert segs[1] != Literal('}');
          assert rest[0] != '}' by {
            match segs[1]
            case Literal(d) =>
            case Placeholder =>
          }
        }
    }
  }

  /** The character class `[a-zA-Z0-9]` that a placeholder stands for. */
  predicate IsAlnum(ch: char)
  {
    ('a' <= ch <= 'z') || ('A' <= ch <= 'Z') || ('0' <= ch <= '9')
  }

  /**
    Whether `key`, in full, is an instance of the segments: a literal must be
    the next character, and a placeholder takes one alphanumeric character and
    then either stops or goes on taking more.
   */
  predicate MatchSegments(segs: seq<Segment>, key: string)
    decreases |key|
  {
    if segs == [] then key == []
    else if key == [] then false
    else match segs[0]
      case Literal(c) => key[0] == c && MatchSegments(segs[1..], key[1..])
      case Placeholder =>
        IsAlnum(key[0]) && (MatchSegments(segs[1..], key[1..]) || MatchSegments(segs, key[1..]))
  }

  function PlaceholderCount(segs: seq<Segment>): nat
  {
    if segs == [] then 0
    else (if segs[0].Placeholder? then 1 else 0) + PlaceholderCount(segs[1..])
  }

  /** A non-empty run of `[a-zA-Z0-9]`. */
  predicate IsRun(run: string)
  {
    run != [] && forall i :: 0 <= i < |run| ==> IsAlnum(run[i])
  }

  /** Fills the placeholders, in order, with the given runs. */
  function Instantiate(segs: seq<Segment>, runs: seq<string>): string
    requires |runs| == PlaceholderCount(segs)
  {
    if segs == [] then []
    else match segs[0]
      case Literal(c) => [c] + Instantiate(segs[1..], runs)
      case Placeholder => runs[0] + Instantiate(segs[1..], runs[1..])
  }

  /** A choice of one run per placeholder. */
  predicate Fills(segs: seq<Segment>, runs: seq<string>)
  {
    |runs| == PlaceholderCount(segs) && forall i :: 0 <= i < |runs| ==> IsRun(runs[i])
  }

  /** A placeholder followed by `rest` accepts any run followed by a key that `rest` accepts. */
  lemma {:induction false} PlaceholderTakesRun(segs: seq<Segment>, run: string, tail: string)
    requires segs != [] && segs[0] == Placeholder
    requires IsRun(run) && MatchSegments(segs[1..], tail)
    ensures MatchSegments(segs, run + tail)
  {
    var key := run + tail;
    if |run| == 1 {
      assert key[1..] == tail;
    } else {
      assert key[1..] == run[1..] + tail;
      assert IsRun(run[1..]) by {
        forall i | 0 <= i < |run[1..]| ensures IsAlnum(run[1..][i]) {
          assert run[1..][i] == run[i + 1];
        }
      }
      PlaceholderTakesRun(segs, run[1..], tail);
    }
  }

  /** Every instance of the segments matches them. */
  lemma {:induction false} InstanceMatches(segs: seq<Segment>, runs: seq<string>)
    requires Fills(segs, runs)
    ensures MatchSegments(segs, Instantiate(segs, runs))
  {
    if segs != [] {
      match segs[0]
      case Literal(c) =>
        InstanceMatches(segs[1..], runs);
        var key := Instantiate(segs, runs);
        assert key[1..] == Instantiate(segs[1..], runs);
      case Placeholder =>
        assert IsRun(runs[0]);
        assert Fills(segs[1..], runs[1..]) by {
          forall i | 0 <= i < |runs[1..]| ensures IsRun(runs[1..][i]) {
            assert runs[1..][i] == runs[i + 1];
          }
        }
        InstanceMatches(segs[1..], runs[1..]);
        PlaceholderTakesRun(segs, runs[0], Instantiate(segs[1..], runs[1..]));
    }
  }

  /** Every key that matches is an instance: the runs that the placeholders took. */
  lemma {:induction false} MatchHasRuns(segs: seq<Segment>, key: string) returns (runs: seq<string>)
    requires MatchSegments(segs, key)
    ensures Fills(segs, runs) && Instantiate(segs, runs) == key
    decreases |key|
  {
    if segs == [] {
      runs := [];
    } else {
      match segs[0]
      case Literal(c) =>
        runs := MatchHasRuns(segs[1..], key[1..]);
        assert [c] + key[1..] == key;
      case Placeholder =>
        if MatchSegments(segs[1..], key[1..]) {
          var rest := MatchHasRuns(segs[1..], key[1..]);
          runs := [[key[0]]] + rest;
          assert runs[1..] == rest;
          assert [key[0]] + key[1..] == key;
        } else {
          var more := MatchHasRuns(segs, key[1..]);
          runs := [[key[0]] + more[0]] + more[1..];
          assert runs[1..] == more[1..];
          assert IsRun(runs[0]) by {
            forall i | 0 <= i < |runs[0]| ensures IsAlnum(runs[0][i]) {
              if i > 0 { assert runs[0][i] == more[0][i - 1]; }
            }
          }
          assert Fills(segs, runs) by {
            forall i | 1 <= i < |runs| ensures IsRun(runs[i]) {
              assert runs[i] == more[i];
            }
          }
          assert key == [key[0]] + (more[0] + Instantiate(segs[1..], more[1..]));
        }
    }
  }

  /** A key pattern: the template text, compared by identity of that text. */
  datatype KeyPattern = KeyPattern(template: string)
  {
    /**
      `KeyPattern::match_key`. A matching key is at least as long as the
      template has segments, since every placeholder takes a character.
     */
    predicate MatchKey(key: string)
      ensures MatchKey(key) ==> |Tokenize(template)| <= |key|
    {
      var segs := Tokenize(template);
      if MatchSegments(segs, key) then MatchCoversEverySegment(segs, key); true else false
    }
  }

  /**
    The matching algebra: a key matches a pattern exactly when it is the
    template with every placeholder replaced by a non-empty alphanumeric run,
    with nothing left over before or after.
   */
  lemma MatchKeyIffInstance(p: KeyPattern, key: string)
    ensures p.MatchKey(key) <==>
      exists runs :: Fills(Tokenize(p.template), runs) && Instantiate(Tokenize(p.template), runs) == key
  {
    var segs := Tokenize(p.template);
    assert p.MatchKey(key) == MatchSegments(segs, key);
    if MatchSegments(segs, key) {
      var runs := MatchHasRuns(segs, key);
      assert exists r :: Fills(Tokenize(p.template), r) && Instantiate(Tokenize(p.template), r) == key;
      assert p.MatchKey(key);
    } else {
      forall runs | Fills(segs, runs) ensures Instantiate(segs, runs) != key {
        InstanceMatches(segs, runs);
      }
    }
  }

  /** A template without placeholders matches its own text and nothing else. */
  lemma {:induction false} LiteralTemplateMatchesItself(segs: seq<Segment>, key: string)
    requires PlaceholderCount(segs) == 0
    ensures MatchSegments(segs, key) <==> key == Render(segs)
    decreases |key|
  {
    if segs != [] && key != [] {
      match segs[0]
      case Literal(c) =>
        LiteralTemplateMatchesItself(segs[1..], key[1..]);
        assert key == [key[0]] + key[1..];
      case Placeholder =>
    }
    else if segs != [] {
      assert segs[0].Literal?;
    }
  }

  /** Every match is at least as long as the template has segments: a placeholder never takes nothing. */
  lemma {:induction false} MatchCoversEverySegment(segs: seq<Segment>, key: string)
    requires MatchSegments(segs, key)
    ensures |key| >= |segs|
    decreases |key|
  {
    if segs != [] {
      match segs[0]
      case Literal(c) =>
        MatchCoversEverySegment(segs[1..], key[1..]);
      case Placeholder =>
        if MatchSegments(segs[1..], key[1..]) {
          MatchCoversEverySegment(segs[1..], key[1..]);
        } else {
          MatchCoversEverySegment(segs, key[1..]);
        }
    }
  }

  /** The segments of the template "xxxx_{}_{}". */
  const ExampleSegs: seq<Segment> := [Literal('x'), Literal('x'), Literal('x'), Literal('x'), Literal('_'), Placeholder, Literal('_'), Placeholder]

  /** The template "xxxx_{}_{}" reads as its example segments: they are canonical and render to it. */
  lemma ExampleTokens(t: string)
    requires t == "xxxx_{}_{}"
    ensures Tokenize(t) == ExampleSegs
  {
    assert Render(ExampleSegs) == t;
    TokenizeRender(ExampleSegs);
  }

  lemma ExampleFills()
    ensures Fills(ExampleSegs, ["abc", "123"])
  {
    assert PlaceholderCount(ExampleSegs[7..]) == 1;
    assert PlaceholderCount(ExampleSegs[5..]) == 2;
  }

  /** A literal in front adds its character in front of the instance. */
  lemma InstantiateLiteral(c: char, segs: seq<Segment>, runs: seq<string>)
    requires |runs| == PlaceholderCount(segs)
    ensures PlaceholderCount([Literal(c)] + segs) == |runs|
    ensures Instantiate([Literal(c)] + segs, runs) == [c] + Instantiate(segs, runs)
  {
    assert ([Literal(c)] + segs)[1..] == segs;
  }

  /** A placeholder in front puts the first run in front of the instance. */
  lemma InstantiatePlaceholder(run: string, segs: seq<Segment>, runs: seq<string>)
    requires |runs| == PlaceholderCount(segs)
    ensures PlaceholderCount([Placeholder] + segs) == |[run] + runs|
    ensures Instantiate([Placeholder] + segs, [run] + runs) == run + Instantiate(segs, runs)
  {
    assert ([Placeholder] + segs)[1..] == segs;
    assert ([run] + runs)[1..] == runs;
  }

  lemma ExampleInstance()
    ensures PlaceholderCount(ExampleSegs) == 2
    ensures Instantiate(ExampleSegs, ["abc", "123"]) == "xxxx_abc_123"
  {
    var s5: seq<Segment> := [Literal('_'), Placeholder];
    InstantiatePlaceholder("123", [], []);
    InstantiateLiteral('_', [Placeholder], ["123"]);
    InstantiatePlaceholder("abc", s5, ["123"]);
    var s4 := [Placeholder] + s5;
    InstantiateLiteral('_', s4, ["abc", "123"]);
    var s3 := [Literal('_')] + s4;
    InstantiateLiteral('x', s3, ["abc", "123"]);
    var s2 := [Literal('x')] + s3;
    InstantiateLiteral('x', s2, ["abc", "123"]);
    var s1 := [Literal('x')] + s2;
    InstantiateLiteral('x', s1, ["abc", "123"]);
    var s0 := [Literal('x')] + s1;
    InstantiateLiteral('x', s0, ["abc", "123"]);
    assert [Literal('x')] + s0 == ExampleSegs;
  }

  /** The unit test `test_key_pattern` (src/worker/app_meta.rs:441-445): "xxxx_{}_{}" matches "xxxx_abc_123". */
  lemma ExampleMatches(t: string, key: string)
    requires t == "xxxx_{}_{}" && key == "xxxx_abc_123"
    ensures KeyPattern(t).MatchKey(key)
  {
    ExampleTokens(t);
    ExampleFills();
    ExampleInstance();
    InstanceMatches(ExampleSegs, ["abc", "123"]);
  }

  /** The second placeholder of "xxxx_{}_{}" cannot stand for nothing: "xxxx_a_" does not match. */
  lemma ExampleEmptyRunRejected(t: string, key: string)
    requires t == "xxxx_{}_{}" && key == "xxxx_a_"
    ensures !KeyPattern(t).MatchKey(key)
  {
    ExampleTokens(t);
    if KeyPattern(t).MatchKey(key) {
      MatchCoversEverySegment(ExampleSegs, key);
    }
  }
}
