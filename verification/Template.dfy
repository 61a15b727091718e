/** Template pages of HttpApi: `{{{name}}}` holes filled by repeated in-place replacement. */
module Template {
  import opened Text
  import opened Replace

  datatype Token = Lit(s: string) | Hole(name: string)

  const OPEN := "{{{"
  const CLOSE := "}}}"

  function Show(t: Token): string {
    match t
    case Lit(s) => s
    case Hole(name) => Mark(name)
  }

  function Mark(name: string): string {
    OPEN + name + CLOSE
  }

  function Render(tokens: seq<Token>): string {
    if tokens == [] then "" else Show(tokens[0]) + Render(tokens[1..])
  }

  predicate Brace(c: char) {
    c == '{' || c == '}'
  }

  /** Three times `c`, from position `p`. */
  predicate RunAt(s: string, p: nat, c: char) {
    p + 2 < |s| && s[p] == c && s[p + 1] == c && s[p + 2] == c
  }

  /** Braces are allowed inside, but not at the ends and not three of a kind in a row. */
  predicate Tame(s: string) {
    && (s != "" ==> !Brace(s[0]) && !Brace(s[|s| - 1]))
    && (forall k :: 0 <= k < |s| ==> !RunAt(s, k, '{') && !RunAt(s, k, '}'))
  }

  predicate TamePage(tokens: seq<Token>) {
    forall i :: 0 <= i < |tokens| ==> TameToken(tokens[i])
  }

  predicate TameParams(params: map<string, string>) {
    forall k <- params :: Tame(k) && Tame(params[k])
  }

  /** The simultaneous substitution: known holes get their values, unknown holes vanish. */
  function Filled(tokens: seq<Token>, params: map<string, string>): string {
    if tokens == [] then ""
    else
      (match tokens[0]
       case Lit(s) => s
       case Hole(n) => if n in params then params[n] else "")
      + Filled(tokens[1..], params)
  }

  /** The page in which the holes named in `m` hold text. */
  function Subst(tokens: seq<Token>, m: map<string, string>): (r: seq<Token>)
    ensures |r| == |tokens|
    ensures forall i :: 0 <= i < |r| ==>
      r[i] == if tokens[i].Hole? && tokens[i].name in m then Lit(m[tokens[i].name]) else tokens[i]
  {
    seq(|tokens|, i requires 0 <= i < |tokens| =>
      if tokens[i].Hole? && tokens[i].name in m then Lit(m[tokens[i].name]) else tokens[i])
  }

  function HoleNames(tokens: seq<Token>): set<string> {
    set t <- tokens | t.Hole? :: t.name
  }

  // ----- Where patterns can stand

  lemma RunIsPrefix(s: string, p: nat)
    requires p <= |s|
    ensures OPEN <= s[p..] <==> RunAt(s, p, '{')
    ensures CLOSE <= s[p..] <==> RunAt(s, p, '}')
  {
    if RunAt(s, p, '{') {
      assert s[p..][..3] == OPEN;
    }
    if RunAt(s, p, '}') {
      assert s[p..][..3] == CLOSE;
    }
    if OPEN <= s[p..] {
      assert OPEN == s[p..p + 3];
      assert s[p] == OPEN[0] && s[p + 1] == OPEN[1] && s[p + 2] == OPEN[2];
    }
    if CLOSE <= s[p..] {
      assert CLOSE == s[p..p + 3];
      assert s[p] == CLOSE[0] && s[p + 1] == CLOSE[1] && s[p + 2] == CLOSE[2];
    }
  }

  /** A tame text stops every run of braces, whatever follows it. */
  lemma TameRun(body: string, after: string, p: nat)
    requires Tame(body) && p < |body|
    ensures !RunAt(body + after, p, '{') && !RunAt(body + after, p, '}')
  {
    assert !RunAt(body, p, '{') && !RunAt(body, p, '}');
    assert (body + after)[|body| - 1] == body[|body| - 1];
  }

  /** The first closing braces behind a name are its own. */
  lemma FirstClose(name: string, after: string, p: nat)
    requires Tame(name) && p <= |name|
    ensures RunAt(name + CLOSE + after, p, '}') <==> p == |name|
    ensures !RunAt(name + CLOSE + after, p, '{')
  {
    assert name + (CLOSE + after) == name + CLOSE + after;
    if p < |name| {
      TameRun(name, CLOSE + after, p);
    }
  }

  predicate TameToken(t: Token) {
    if t.Lit? then Tame(t.s) else Tame(t.name)
  }

  /** Three braces open a hole or close one; they stand nowhere else. */
  lemma BracesIn(t: Token, after: string, p: nat)
    requires TameToken(t) && p < |Show(t)|
    ensures RunAt(Show(t) + after, p, '{') <==> t.Hole? && p == 0
    ensures t.Lit? || p < 3 + |t.name| ==> !RunAt(Show(t) + after, p, '}')
  {
    match t
    case Lit(s) => TameRun(s, after, p);
    case Hole(name) => HoleRuns(name, after, p);
  }

  lemma HoleRuns(name: string, after: string, p: nat)
    requires Tame(name) && p < |Mark(name)|
    ensures RunAt(Mark(name) + after, p, '{') <==> p == 0
    ensures p < 3 + |name| ==> !RunAt(Mark(name) + after, p, '}')
  {
    hide Tame;
    var tail := name + CLOSE + after;
    var s := OPEN + tail;
    assert Mark(name) + after == s;
    assert tail[0] != '{' by {
      assert tail[0] == if name == "" then '}' else name[0];
      if name != "" {
        TameStart(name);
      }
    }
    if p >= 3 {
      assert RunAt(s, p, '{') <==> RunAt(tail, p - 3, '{');
      assert RunAt(s, p, '}') <==> RunAt(tail, p - 3, '}');
      if p <= 3 + |name| {
        FirstClose(name, after, p - 3);
      } else {
        assert s[p] == '}';
      }
    } else {
      assert s[2] == '{' && s[3] == tail[0] && s[0] == '{' && s[1] == '{';
    }
  }

  lemma TameStart(s: string)
    requires Tame(s) && s != ""
    ensures !Brace(s[0])
  {}

  /** Two names that are closed at the same place of one text are one name. */
  lemma SameName(m: string, n: string, a: string, b: string)
    requires Tame(m) && Tame(n) && m + CLOSE + a == n + CLOSE + b
    ensures m == n
  {
    hide Tame, RunAt;
    if |n| <= |m| {
      FirstClose(m, a, |n|);
      FirstClose(n, b, |n|);
    } else {
      FirstClose(n, b, |m|);
      FirstClose(m, a, |m|);
    }
    assert n == (n + CLOSE + b)[..|n|];
    assert m == (m + CLOSE + a)[..|m|];
  }

  /** The mark of one hole cannot be read as the mark of another. */
  lemma MarkIs(m: string, n: string, after: string)
    requires Tame(m) && Tame(n)
    ensures Mark(n) <= Mark(m) + after <==> m == n
  {
    hide Tame;
    var tail := m + CLOSE + after;
    var s := Mark(m) + after;
    assert s[3..] == tail;
    if Mark(n) <= s {
      var rest := s[|Mark(n)|..];
      assert s == Mark(n) + rest;
      assert s[3..] == n + CLOSE + rest;
      SameName(m, n, after, rest);
    }
    if m == n {
      assert s[..|Mark(n)|] == Mark(n);
    }
  }

  /** A mark matches only where its hole stands. */
  lemma MarkIn(t: Token, after: string, n: string, p: nat)
    requires TameToken(t) && Tame(n) && p < |Show(t)|
    ensures Mark(n) <= (Show(t) + after)[p..] <==> t == Hole(n) && p == 0
  {
    BracesIn(t, after, p);
    var s := Show(t) + after;
    RunIsPrefix(s, p);
    if Mark(n) <= s[p..] {
      assert OPEN == Mark(n)[..3] == s[p..][..3];
    }
    if t.Hole? && p == 0 {
      assert s[0..] == Mark(t.name) + after;
      MarkIs(t.name, n, after);
    }
  }

  // ----- One replacement, and the first hole

  /** Replacing the mark of a hole everywhere puts the text into every hole of that name. */
  lemma {:induction false} ReplacedIsSubst(tokens: seq<Token>, n: string, v: string)
    requires TamePage(tokens) && Tame(n)
    ensures Replaced(Render(tokens), Mark(n), v) == Render(Subst(tokens, map[n := v]))
    decreases tokens
  {
    hide Replaced, Tame, Mark;
    var mark := Mark(n);
    assert mark != "" by {
      MarkLength(n);
    }
    if tokens == [] {
      ReplacedNothing(mark, v);
    } else {
      var t, rest := tokens[0], tokens[1..];
      var s := Render(tokens);
      ReplacedIsSubst(rest, n, v);
      assert Subst(tokens, map[n := v])[1..] == Subst(rest, map[n := v]);
      assert s[|Show(t)|..] == Render(rest);
      forall p | 0 <= p < |Show(t)|
        ensures mark <= s[p..] <==> t == Hole(n) && p == 0
      {
        MarkIn(t, Render(rest), n, p);
      }
      if t == Hole(n) {
        MarkLength(n);
        assert s[0..] == s;
        ReplacedHere(s, mark, v);
      } else {
        ReplacedSkip(s, mark, v, |Show(t)|);
        assert s[..|Show(t)|] == Show(t);
      }
    }
  }

  lemma MarkLength(n: string)
    ensures |Mark(n)| == |n| + 6 && |Show(Hole(n))| == |n| + 6
  {}

  lemma ReplacedNothing(from: string, to: string)
    requires from != ""
    ensures Replaced("", from, to) == ""
  {}

  datatype Place = Place(offset: nat, name: string)

  /** The first hole of a page and the offset of its mark. */
  function FirstHole(tokens: seq<Token>): Option<Place> {
    if tokens == [] then None
    else
      match tokens[0]
      case Hole(name) => Some(Place(0, name))
      case Lit(s) =>
        match FirstHole(tokens[1..])
        case None => None
        case Some(p) => Some(Place(|s| + p.offset, p.name))
  }

  /** The first run of opening braces stands at the place, and no closing run stands before its end. */
  ghost predicate FirstAt(s: string, place: Option<Place>) {
    match place
    case None => forall p :: 0 <= p <= |s| ==> !RunAt(s, p, '{')
    case Some(h) =>
      && Occurs(s, h.offset, Mark(h.name))
      && (forall p :: 0 <= p < h.offset ==> !RunAt(s, p, '{'))
      && (forall p :: 0 <= p < h.offset + 3 + |h.name| ==> !RunAt(s, p, '}'))
  }

  lemma BehindText(a: string, tail: string, place: Option<Place>)
    requires FirstAt(tail, place)
    requires forall p :: 0 <= p < |a| ==> !RunAt(a + tail, p, '{') && !RunAt(a + tail, p, '}')
    ensures FirstAt(a + tail, match place case None => None case Some(h) => Some(Place(|a| + h.offset, h.name)))
  {
    hide RunAt, Occurs, Mark;
    forall p | |a| <= p
      ensures RunAt(a + tail, p, '{') <==> RunAt(tail, p - |a|, '{')
      ensures RunAt(a + tail, p, '}') <==> RunAt(tail, p - |a|, '}')
    {
      RunBehind(a, tail, p);
    }
    if place.Some? {
      OccursBehind(a, tail, place.value.offset, Mark(place.value.name));
    }
  }

  /** The first run of opening braces is the first hole's, and the first run of closing braces is its end. */
  lemma {:induction false} FirstRuns(tokens: seq<Token>)
    requires TamePage(tokens)
    ensures FirstAt(Render(tokens), FirstHole(tokens))
    ensures match FirstHole(tokens)
      case None => HoleNames(tokens) == {}
      case Some(h) => h.name in HoleNames(tokens) && Tame(h.name)
    decreases tokens
  {
    hide Tame, RunAt, FirstAt;
    if tokens != [] {
      var t, rest := tokens[0], tokens[1..];
      var s, tail := Render(tokens), Render(tokens[1..]);
      assert TameToken(t);
      assert HoleNames(tokens) == HoleNames(rest) + (if t.Hole? then {t.name} else {}) by {
        assert tokens == [t] + rest;
      }
      forall p | 0 <= p < |Show(t)|
        ensures RunAt(s, p, '{') <==> t.Hole? && p == 0
        ensures t.Lit? || p < 3 + |t.name| ==> !RunAt(s, p, '}')
      {
        BracesIn(t, tail, p);
      }
      if t.Hole? {
        MarkFirst(t.name, tail);
      } else {
        FirstRuns(rest);
        BehindText(t.s, tail, FirstHole(rest));
      }
    } else {
      NoRun();
      assert FirstAt("", None) by {
        NothingFirst();
      }
    }
  }

  lemma NothingFirst()
    ensures FirstAt("", None)
  {}

  lemma MarkFirst(name: string, tail: string)
    requires forall p :: 0 <= p < 3 + |name| ==> !RunAt(Mark(name) + tail, p, '}')
    ensures FirstAt(Mark(name) + tail, Some(Place(0, name)))
  {
    hide RunAt;
    OccursSelf(Mark(name) + tail);
    OccursSplit(Mark(name) + tail, 0, Mark(name), tail);
  }

  lemma NoRun()
    ensures forall p: nat, c :: !RunAt("", p, c)
  {}

  lemma RunBehind(a: string, b: string, p: nat)
    requires |a| <= p
    ensures forall c :: RunAt(a + b, p, c) <==> RunAt(b, p - |a|, c)
  {}

  lemma OccursBehind(a: string, b: string, it: nat, part: string)
    requires Occurs(b, it, part)
    ensures Occurs(a + b, |a| + it, part)
  {
    assert (a + b)[|a| + it..|a| + it + |part|] == b[it..it + |part|];
  }

  /** What the two searches of the clean-up loop find. */
  lemma {:induction false} FindHole(tokens: seq<Token>)
    requires TamePage(tokens)
    ensures var s := Render(tokens);
      match FirstHole(tokens)
      case None => Find(s, OPEN, 0) == None
      case Some(h) =>
        && Find(s, OPEN, 0) == Some(h.offset) && Find(s, CLOSE, 0) == Some(h.offset + 3 + |h.name|)
        && h.offset + |h.name| + 6 <= |s| && s[h.offset..h.offset + |h.name| + 6] == Mark(h.name)
  {
    hide Tame, RunAt, Occurs, Render, Mark, Find;
    var s := Render(tokens);
    FirstRuns(tokens);
    RunsAreFound(s);
    if FirstHole(tokens).Some? {
      var h := FirstHole(tokens).value;
      MarkParts(s, h.offset, h.name);
    }
  }

  lemma MarkParts(s: string, it: nat, name: string)
    requires Occurs(s, it, Mark(name))
    ensures it + |name| + 6 <= |s| && s[it..it + |name| + 6] == Mark(name)
    ensures RunAt(s, it, '{') && RunAt(s, it + 3 + |name|, '}')
  {
    var m := Mark(name);
    assert forall k :: 0 <= k < |m| ==> s[it + k] == s[it..it + |m|][k] == m[k];
    assert m[3 + |name|] == '}' && m[4 + |name|] == '}' && m[5 + |name|] == '}';
  }

  /** A search for braces returns the first run. */
  lemma RunsAreFound(s: string)
    ensures match Find(s, OPEN, 0)
      case None => forall p :: 0 <= p <= |s| ==> !RunAt(s, p, '{')
      case Some(k) => k <= |s| && RunAt(s, k, '{') && forall p :: 0 <= p < k ==> !RunAt(s, p, '{')
    ensures match Find(s, CLOSE, 0)
      case None => forall p :: 0 <= p <= |s| ==> !RunAt(s, p, '}')
      case Some(k) => k <= |s| && RunAt(s, k, '}') && forall p :: 0 <= p < k ==> !RunAt(s, p, '}')
  {
    hide Occurs, RunAt;
    forall p | 0 <= p <= |s|
      ensures Occurs(s, p, OPEN) <==> RunAt(s, p, '{')
      ensures Occurs(s, p, CLOSE) <==> RunAt(s, p, '}')
    {
      RunIsPrefix(s, p);
      OccursIsPrefix(s, p, OPEN);
      OccursIsPrefix(s, p, CLOSE);
    }
    assert Find(s, OPEN, 0).Some? ==> Find(s, OPEN, 0).value <= |s| by {
      FoundInside(s, OPEN);
    }
    assert Find(s, CLOSE, 0).Some? ==> Find(s, CLOSE, 0).value <= |s| by {
      FoundInside(s, CLOSE);
    }
  }

  lemma FoundInside(s: string, part: string)
    ensures Find(s, part, 0).Some? ==> Find(s, part, 0).value <= |s|
  {}
}
