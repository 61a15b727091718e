/** Filling a page: the parameter loop, the clean-up loop, and when both together are the simultaneous substitution. */
module TemplateFill {
  import opened Text
  import opened Replace
  import opened Template

  /** Parameters as tokens: a value may hold holes of its own. */
  ghost predicate Made(params: map<string, string>, values: map<string, seq<Token>>) {
    && values.Keys == params.Keys
    && forall k <- params :: Tame(k) && TamePage(values[k]) && params[k] == Render(values[k])
  }

  /** The page in which every hole `n` became some tokens. */
  function Splice(tokens: seq<Token>, n: string, value: seq<Token>): seq<Token> {
    if tokens == [] then []
    else (if tokens[0] == Hole(n) then value else [tokens[0]]) + Splice(tokens[1..], n, value)
  }

  /** The page after some parameters, in the order in which the map was walked. */
  function Spliced(tokens: seq<Token>, values: map<string, seq<Token>>, order: seq<string>): seq<Token>
    requires forall k <- order :: k in values
  {
    if order == [] then tokens
    else
      var n := |order| - 1;
      Splice(Spliced(tokens, values, order[..n]), order[n], values[order[n]])
  }

  lemma {:induction false} RenderAppend(a: seq<Token>, b: seq<Token>)
    ensures Render(a + b) == Render(a) + Render(b)
  {
    hide Show;
    if a == [] {
      assert a + b == b;
    } else {
      assert (a + b)[1..] == a[1..] + b && (a + b)[0] == a[0];
      RenderAppend(a[1..], b);
    }
  }

  lemma FirstShown(t: Token, n: string, value: seq<Token>)
    ensures Render(if t == Hole(n) then value else [t]) == Show(if t == Hole(n) then Lit(Render(value)) else t)
  {
    RenderOne(t);
  }

  lemma RenderFirst(tokens: seq<Token>)
    requires tokens != []
    ensures Render(tokens) == Show(tokens[0]) + Render(tokens[1..])
  {}

  lemma SubstFirst(tokens: seq<Token>, n: string, v: string)
    requires tokens != []
    ensures var r, m := Subst(tokens, map[n := v]), map[n := v];
      r != [] && r[0] == (if tokens[0] == Hole(n) then Lit(v) else tokens[0]) && r[1..] == Subst(tokens[1..], m)
  {}

  /** Splicing tokens prints as putting in their text. */
  lemma {:induction false} SpliceRender(tokens: seq<Token>, n: string, value: seq<Token>)
    ensures Render(Splice(tokens, n, value)) == Render(Subst(tokens, map[n := Render(value)]))
  {
    var m := map[n := Render(value)];
    if tokens != [] {
      var first, rest := if tokens[0] == Hole(n) then value else [tokens[0]], Splice(tokens[1..], n, value);
      assert Splice(tokens, n, value) == first + rest;
      SubstFirst(tokens, n, Render(value));
      hide Splice, Render, Show, Subst;
      SpliceRender(tokens[1..], n, value);
      RenderAppend(first, rest);
      FirstShown(tokens[0], n, value);
      RenderFirst(Subst(tokens, m));
    }
  }

  lemma RenderOne(t: Token)
    ensures Render([t]) == Show(t)
  {
    assert [t][1..] == [];
  }

  lemma {:induction false} SpliceTame(tokens: seq<Token>, n: string, value: seq<Token>)
    requires TamePage(tokens) && TamePage(value)
    ensures TamePage(Splice(tokens, n, value))
  {
    hide TameToken;
    if tokens != [] {
      SpliceTame(tokens[1..], n, value);
    }
  }

  lemma {:induction false} SplicedTame(tokens: seq<Token>, params: map<string, string>, values: map<string, seq<Token>>, order: seq<string>)
    requires TamePage(tokens) && Made(params, values) && forall k <- order :: k in params
    ensures TamePage(Spliced(tokens, values, order))
    decreases |order|
  {
    hide TamePage, Tame, Render, Splice;
    if order != [] {
      var n := |order| - 1;
      SplicedTame(tokens, params, values, order[..n]);
      SpliceTame(Spliced(tokens, values, order[..n]), order[n], values[order[n]]);
    }
  }

  /** The parameter loop: every parameter fills the holes there are when its turn comes. */
  method Substitute(page: string, params: map<string, string>, ghost tokens: seq<Token>, ghost values: map<string, seq<Token>>)
    returns (body: string, ghost order: seq<string>)
    requires page == Render(tokens) && TamePage(tokens) && Made(params, values)
    ensures Orders(order, params.Keys)
    ensures body == Render(Spliced(tokens, values, order)) && TamePage(Spliced(tokens, values, order))
  {
    hide Tame, Render, Mark, TameToken, Splice;
    body, order := page, [];
    var rest := params.Keys;
    while rest != {}
      invariant rest <= params.Keys && Orders(order, params.Keys - rest)
      invariant body == Render(Spliced(tokens, values, order)) && TamePage(Spliced(tokens, values, order))
      decreases rest
    {
      var key :| key in rest;
      rest := rest - {key};
      ghost var left := Spliced(tokens, values, order);
      assert (order + [key])[..|order|] == order;
      ReplacedIsSubst(left, key, params[key]);
      SpliceRender(left, key, values[key]);
      SpliceTame(left, key, values[key]);
      MarkLength(key);
      body := ReplaceAll(body, Mark(key), params[key]);
      order := order + [key];
    }
  }

  // ----- The clean-up loop

  lemma SubstMore(tokens: seq<Token>, m: map<string, string>, n: string, v: string)
    requires n !in m
    ensures Subst(Subst(tokens, m), map[n := v]) == Subst(tokens, m[n := v])
  {}

  lemma SubstHoles(tokens: seq<Token>, m: map<string, string>)
    ensures HoleNames(Subst(tokens, m)) == HoleNames(tokens) - m.Keys
  {
    var r := Subst(tokens, m);
    forall n <- HoleNames(tokens) - m.Keys
      ensures n in HoleNames(r)
    {
      var i :| 0 <= i < |tokens| && tokens[i] == Hole(n);
      assert r[i] == Hole(n);
    }
  }

  /** Holes that were removed so far. */
  ghost predicate Removed(m: map<string, string>) {
    forall k <- m :: m[k] == ""
  }

  lemma RemovedTame(tokens: seq<Token>, m: map<string, string>)
    requires TamePage(tokens) && Removed(m)
    ensures TamePage(Subst(tokens, m))
  {}

  /** When every hole is removed, the text between the holes is left. */
  lemma {:induction false} AllRemoved(tokens: seq<Token>, m: map<string, string>)
    requires Removed(m) && forall i :: 0 <= i < |tokens| && tokens[i].Hole? ==> tokens[i].name in m
    ensures Render(Subst(tokens, m)) == Filled(tokens, map[])
  {
    if tokens != [] {
      AllRemoved(tokens[1..], m);
      assert Subst(tokens, m)[1..] == Subst(tokens[1..], m);
    }
  }

  lemma NoHoleLeft(tokens: seq<Token>, m: map<string, string>)
    requires Removed(m) && HoleNames(Subst(tokens, m)) == {}
    ensures Render(Subst(tokens, m)) == Filled(tokens, map[])
  {
    SubstHoles(tokens, m);
    forall i | 0 <= i < |tokens| && tokens[i].Hole?
      ensures tokens[i].name in m
    {
      assert tokens[i] in tokens;
      assert tokens[i].name in HoleNames(tokens);
      assert tokens[i].name !in HoleNames(tokens) - m.Keys;
    }
    AllRemoved(tokens, m);
  }

  /** One round: the text cut out is the mark of a hole, and replacing it removes the hole. */
  lemma RemoveRound(tokens: seq<Token>, m: map<string, string>) returns (name: string)
    requires Removed(m) && TamePage(tokens) && Find(Render(Subst(tokens, m)), OPEN, 0).Some?
    ensures var left := Subst(tokens, m);
      var body := Render(left);
      var start, end := Find(body, OPEN, 0).value, Find(body, CLOSE, 0);
      && end.Some? && start <= end.value && end.value + 3 <= |body| && body[start..end.value + 3] == Mark(name)
      && Mark(name) != ""
      && Replaced(body, Mark(name), "") == Render(Subst(tokens, m[name := ""]))
      && HoleNames(Subst(tokens, m[name := ""])) < HoleNames(left)
  {
    hide Tame, Render, Mark, Find, FirstHole;
    var left := Subst(tokens, m);
    RemovedTame(tokens, m);
    FindHole(left);
    FirstRuns(left);
    name := FirstHole(left).value.name;
    SubstHoles(tokens, m);
    ReplacedIsSubst(left, name, "");
    MarkLength(name);
    SubstMore(tokens, m, name, "");
    SubstHoles(left, map[name := ""]);
  }

  /** The clean-up loop ends, and removes exactly the holes. */
  method RemoveLeftovers(page: string, ghost tokens: seq<Token>) returns (body: string)
    requires page == Render(tokens) && TamePage(tokens)
    ensures body == Filled(tokens, map[])
  {
    hide Tame, Render, Mark, Find, Filled;
    body := page;
    ghost var m: map<string, string> := map[];
    assert Subst(tokens, m) == tokens;
    var start := Find(body, OPEN, 0);
    var end := if start.Some? then Find(body, CLOSE, 0) else None;
    while start.Some? && end.Some?
      invariant Removed(m) && body == Render(Subst(tokens, m))
      invariant start == Find(body, OPEN, 0) && end == if start.Some? then Find(body, CLOSE, 0) else None
      decreases HoleNames(Subst(tokens, m))
    {
      ghost var name := RemoveRound(tokens, m);
      var parameter := body[start.value..end.value + 3];
      body := ReplaceAll(body, parameter, "");
      m := m[name := ""];
      start := Find(body, OPEN, 0);
      end := if start.Some? then Find(body, CLOSE, 0) else None;
    }
    RemovedTame(tokens, m);
    FindHole(Subst(tokens, m));
    FirstRuns(Subst(tokens, m));
    NoHoleLeft(tokens, m);
  }

  // ----- Both loops and the simultaneous substitution

  lemma {:induction false} FilledAppend(a: seq<Token>, b: seq<Token>, m: map<string, string>)
    ensures Filled(a + b, m) == Filled(a, m) + Filled(b, m)
  {
    if a == [] {
      assert a + b == b;
    } else {
      assert (a + b)[1..] == a[1..] + b && (a + b)[0] == a[0];
      FilledAppend(a[1..], b, m);
    }
  }

  /** Filling spliced tokens is filling the hole with their filling. */
  lemma {:induction false} FilledSplice(tokens: seq<Token>, n: string, value: seq<Token>, m: map<string, string>)
    requires n !in m
    ensures Filled(Splice(tokens, n, value), m) == Filled(tokens, m[n := Filled(value, m)])
  {
    if tokens != [] {
      var first, rest := if tokens[0] == Hole(n) then value else [tokens[0]], Splice(tokens[1..], n, value);
      FilledSplice(tokens[1..], n, value, m);
      FilledAppend(first, rest, m);
      if tokens[0] != Hole(n) {
        assert first[1..] == [] && Filled(first[1..], m) == "";
      }
    }
  }

  /** Only the holes of a page matter. */
  lemma {:induction false} FilledSame(tokens: seq<Token>, m: map<string, string>, o: map<string, string>)
    requires forall n <- HoleNames(tokens) :: (n in m <==> n in o) && (n in m ==> m[n] == o[n])
    ensures Filled(tokens, m) == Filled(tokens, o)
  {
    if tokens != [] {
      assert forall n <- HoleNames(tokens[1..]) :: n in HoleNames(tokens);
      assert tokens[0] in tokens;
      FilledSame(tokens[1..], m, o);
    }
  }

  lemma {:induction false} FilledFlat(tokens: seq<Token>, m: map<string, string>)
    requires HoleNames(tokens) == {}
    ensures Filled(tokens, m) == Render(tokens)
  {
    if tokens != [] {
      HolesFirst(tokens);
      FilledFlat(tokens[1..], m);
    }
  }

  lemma HolesFirst(tokens: seq<Token>)
    requires tokens != []
    ensures HoleNames(tokens) == HoleNames(tokens[1..]) + if tokens[0].Hole? then {tokens[0].name} else {}
  {
    assert tokens == [tokens[0]] + tokens[1..];
  }

  /** No parameter whose hole is on the page brings a hole of its own. */
  predicate Flat(tokens: seq<Token>, values: map<string, seq<Token>>) {
    forall n <- HoleNames(tokens) :: n in values ==> HoleNames(values[n]) == {}
  }

  lemma {:induction false} SpliceHoles(tokens: seq<Token>, n: string, value: seq<Token>)
    ensures HoleNames(Splice(tokens, n, value)) <= HoleNames(tokens) + if n in HoleNames(tokens) then HoleNames(value) else {}
  {
    if tokens != [] {
      var first, rest := if tokens[0] == Hole(n) then value else [tokens[0]], Splice(tokens[1..], n, value);
      SpliceHoles(tokens[1..], n, value);
      HolesFirst(tokens);
      assert HoleNames(first + rest) == HoleNames(first) + HoleNames(rest);
      assert tokens[0] != Hole(n) ==> HoleNames(first) <= HoleNames(tokens);
    }
  }

  lemma {:induction false} SplicedHoles(tokens: seq<Token>, values: map<string, seq<Token>>, order: seq<string>)
    requires Flat(tokens, values) && forall k <- order :: k in values
    ensures HoleNames(Spliced(tokens, values, order)) <= HoleNames(tokens)
    decreases |order|
  {
    hide HoleNames;
    if order != [] {
      var n := |order| - 1;
      SplicedHoles(tokens, values, order[..n]);
      SpliceHoles(Spliced(tokens, values, order[..n]), order[n], values[order[n]]);
    }
  }

  /** The parameters that had their turn. */
  function Turns(params: map<string, string>, order: seq<string>): map<string, string> {
    map k | k in order && k in params :: params[k]
  }

  predicate Distinct(order: seq<string>) {
    forall a, b :: 0 <= a < b < |order| ==> order[a] != order[b]
  }

  lemma TurnsMore(params: map<string, string>, order: seq<string>, key: string, m: map<string, string>)
    requires key in params && key !in m
    ensures Turns(params, order) + m[key := params[key]] == Turns(params, order + [key]) + m
  {}

  /** With flat values the order of the map does not matter: what is left is filled as if at once. */
  lemma {:induction false} FlatFills(tokens: seq<Token>, params: map<string, string>, values: map<string, seq<Token>>,
                                     order: seq<string>, m: map<string, string>)
    requires Made(params, values) && Flat(tokens, values) && Distinct(order) && forall k <- order :: k in params
    requires forall k <- m :: k !in order
    ensures Filled(Spliced(tokens, values, order), m) == Filled(tokens, Turns(params, order) + m)
    decreases |order|
  {
    hide Tame, TamePage, HoleNames, Filled, Splice;
    if order == [] {
      assert Turns(params, order) + m == m;
    } else {
      var before, key := order[..|order| - 1], order[|order| - 1];
      assert order == before + [key] && key !in before;
      hide Turns;
      var more := m[key := params[key]];
      FlatStep(tokens, params, values, before, key, m);
      FlatFills(tokens, params, values, before, more);
      TurnsMore(params, before, key, m);
    }
  }

  /** The turn of one parameter. */
  lemma FlatStep(tokens: seq<Token>, params: map<string, string>, values: map<string, seq<Token>>,
                 before: seq<string>, key: string, m: map<string, string>)
    requires Made(params, values) && Flat(tokens, values) && (forall k <- before :: k in params)
    requires key in params && key !in m
    ensures var left := Spliced(tokens, values, before);
      Filled(Splice(left, key, values[key]), m) == Filled(left, m[key := params[key]])
  {
    hide Tame, TamePage, HoleNames, Filled, Splice, Spliced;
    var left, value := Spliced(tokens, values, before), values[key];
    FilledSplice(left, key, value, m);
    SplicedHoles(tokens, values, before);
    if key in HoleNames(left) {
      FilledFlat(value, m);
    }
    FilledSame(left, m[key := Filled(value, m)], m[key := params[key]]);
  }

  /** What the clean-up loop leaves has no run of opening braces. */
  lemma LeftHasNoRun(tokens: seq<Token>, p: nat)
    requires TamePage(tokens)
    ensures !RunAt(Filled(tokens, map[]), p, '{')
  {
    hide Tame, RunAt, Render, Filled;
    var m := map n | n in HoleNames(tokens) :: "";
    var left := Subst(tokens, m);
    RemovedTame(tokens, m);
    SubstHoles(tokens, m);
    NoHoleLeft(tokens, m);
    FirstRuns(left);
    RunInside(Render(left), p, '{');
  }

  lemma RunInside(s: string, p: nat, c: char)
    ensures RunAt(s, p, c) ==> p <= |s|
  {}

  /** The value of a hole stands in the filled page. */
  lemma {:induction false} FilledHolds(tokens: seq<Token>, params: map<string, string>, n: string) returns (p: nat)
    requires n in HoleNames(tokens) && n in params
    ensures Occurs(Filled(tokens, params), p, params[n])
  {
    var rest := Filled(tokens[1..], params);
    if tokens[0] == Hole(n) {
      p := 0;
      assert (params[n] + rest)[0..|params[n]|] == params[n];
    } else {
      HolesFirst(tokens);
      var q := FilledHolds(tokens[1..], params, n);
      var first := match tokens[0] case Lit(s) => s case Hole(k) => if k in params then params[k] else "";
      p := |first| + q;
      OccursBehind(first, rest, q, params[n]);
    }
  }

  /** A value with a hole brings a run of opening braces into the page. */
  lemma HoleShows(tokens: seq<Token>, params: map<string, string>, values: map<string, seq<Token>>, n: string) returns (p: nat)
    requires Made(params, values) && n in HoleNames(tokens) && n in params && HoleNames(values[n]) != {}
    ensures RunAt(Filled(tokens, params), p, '{')
  {
    hide Tame, Render, Mark, Filled, Occurs;
    var at := FilledHolds(tokens, params, n);
    FirstRuns(values[n]);
    var h := FirstHole(values[n]).value;
    MarkParts(params[n], h.offset, h.name);
    p := at + h.offset;
    RunInPart(Filled(tokens, params), at, params[n], h.offset, '{');
  }

  lemma RunInPart(s: string, at: nat, part: string, p: nat, c: char)
    requires Occurs(s, at, part) && RunAt(part, p, c)
    ensures RunAt(s, at + p, c)
  {
    var q := s[at..at + |part|];
    assert q[p] == s[at + p] && q[p + 1] == s[at + p + 1] && q[p + 2] == s[at + p + 2];
  }

  /**
   The page is the simultaneous substitution exactly when no parameter whose hole is on it
   brings a hole of its own, whatever the order in which the map is walked.
   */
  lemma FilledExact(tokens: seq<Token>, params: map<string, string>, values: map<string, seq<Token>>, order: seq<string>)
    requires TamePage(tokens) && Made(params, values) && Orders(order, params.Keys)
    ensures Filled(Spliced(tokens, values, order), map[]) == Filled(tokens, params) <==> Flat(tokens, values)
  {
    hide Tame, TamePage, HoleNames, Filled, Splice, RunAt, Spliced;
    if Flat(tokens, values) {
      assert Turns(params, order) == params;
      FlatFills(tokens, params, values, order, map[]);
      assert params + map[] == params;
    } else {
      var n :| n in HoleNames(tokens) && n in values && HoleNames(values[n]) != {};
      var p := HoleShows(tokens, params, values, n);
      SplicedTame(tokens, params, values, order);
      LeftHasNoRun(Spliced(tokens, values, order), p);
    }
  }

  /** A value without three opening braces has no holes, and only such a value. */
  lemma FlatIsPlain(tokens: seq<Token>, params: map<string, string>, values: map<string, seq<Token>>)
    requires Made(params, values)
    ensures Flat(tokens, values) <==> forall n <- HoleNames(tokens) :: n in params ==> Find(params[n], OPEN, 0) == None
  {
    hide Tame, Find, Render, Mark;
    forall n <- params
      ensures HoleNames(values[n]) == {} <==> Find(params[n], OPEN, 0) == None
    {
      FindHole(values[n]);
      FirstRuns(values[n]);
    }
  }

  /** A whole template: exactly when no value put on the page has three opening braces, it is the simultaneous substitution. */
  method FillTemplate(page: string, params: map<string, string>, ghost tokens: seq<Token>, ghost values: map<string, seq<Token>>)
    returns (body: string)
    requires page == Render(tokens) && TamePage(tokens) && Made(params, values)
    ensures exists order :: Orders(order, params.Keys) && body == Filled(Spliced(tokens, values, order), map[])
    ensures body == Filled(tokens, params) <==> forall n <- HoleNames(tokens) :: n in params ==> Find(params[n], OPEN, 0) == None
    ensures TameParams(params) ==> body == Filled(tokens, params)
  {
    if TameParams(params) {
      TameUnmarked(params);
    }
    hide Tame, Find, Render, Filled, Spliced, HoleNames, Flat;
    ghost var order;
    body, order := Substitute(page, params, tokens, values);
    body := RemoveLeftovers(body, Spliced(tokens, values, order));
    FilledExact(tokens, params, values, order);
    FlatIsPlain(tokens, params, values);
  }

  lemma TameUnmarked(params: map<string, string>)
    requires TameParams(params)
    ensures forall n <- params :: Find(params[n], OPEN, 0) == None
  {
    hide Find, RunAt;
    forall n <- params
      ensures Find(params[n], OPEN, 0) == None
    {
      RunsAreFound(params[n]);
      TameNoRun(params[n]);
    }
  }

  lemma TameNoRun(s: string)
    requires Tame(s)
    ensures forall p :: 0 <= p <= |s| ==> !RunAt(s, p, '{')
  {}

  /** Tame values are their own tokens. */
  lemma TameMade(params: map<string, string>)
    requires TameParams(params)
    ensures Made(params, map k | k in params :: [Lit(params[k])])
  {
    forall k <- params
      ensures Render([Lit(params[k])]) == params[k]
    {
      RenderOne(Lit(params[k]));
    }
  }

  /**
   A value that is itself a mark makes the page depend on the order in which the map is
   walked: filling `a` with the mark of `b` before or after `b` gives different pages.
   */
  lemma OrderMattersForMarks()
    ensures Replaced(Replaced(Mark("a"), Mark("a"), Mark("b")), Mark("b"), "x") == "x"
    ensures Replaced(Replaced(Mark("a"), Mark("b"), "x"), Mark("a"), Mark("b")) == Mark("b")
  {
    hide Replaced;
    MarkAlone("a", "a", Mark("b"));
    MarkAlone("b", "b", "x");
    MarkAlone("a", "b", "x");
  }

  lemma MarkAlone(m: string, n: string, v: string)
    requires |m| == 1 && |n| == 1 && !Brace(m[0]) && !Brace(n[0])
    ensures Replaced(Mark(m), Mark(n), v) == if m == n then v else Mark(m)
  {
    hide Replaced;
    var page := [Hole(m)];
    assert page[1..] == [];
    assert Render(page) == Mark(m);
    ReplacedIsSubst(page, n, v);
    assert Subst(page, map[n := v]) == [if m == n then Lit(v) else Hole(m)];
    assert [Lit(v)][1..] == [];
    assert Render([Lit(v)]) == v;
  }
}
