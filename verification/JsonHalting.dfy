/**
 Whether `JsonObject::parse` comes back, for every text, NULs and all. One pass over the text
 with a stack of the values that wait for a child decides; it builds no node and no key, calls
 nothing, and never goes back.
 */
module JsonHalting {
  import opened Text
  import opened JsonScan
  import opened JsonRoundTrip
  import opened JsonLaws

  /** Values that wait for a child, the innermost last. */
  predicate Holders(below: seq<Kind>) {
    forall i :: 0 <= i < |below| ==> below[i] == Array || below[i] == Object
  }

  /**
   The check, inside a value of this kind with the values `below` waiting. At a NUL all values
   end, but one: the holder of a string, or of a value that never began, reads the character in
   front of the NUL again. A backslash takes it behind the NUL; on a quote an array parses that
   quote again and again. Behind a backslash at the end of the text there is nothing to read.
   */
  predicate Halts(text: string, it: nat, kind: Kind, os: ObjState, below: seq<Kind>)
    requires it <= |text|
    decreases |text| - it, if kind == NoType then 0 else 1
  {
    if At(text, it) == NUL then
      if below == [] || kind == Array || kind == Object then true
      else if it == 0 then false
      else
        var holder := below[|below| - 1];
        if text[it - 1] == '\\' then it < |text| && Halts(text, it + 1, holder, NoState, below[..|below| - 1])
        else text[it - 1] != '"' || holder != Array
    else if text[it] == '\\' then it + 1 < |text| && Halts(text, it + 2, kind, os, below)
    else
      match ActionOf(kind, os, text[it])
      case Open(now) => Halts(text, it + 1, now, NoState, below)
      case Quoted => below == [] || Halts(text, it + 1, below[|below| - 1], NoState, below[..|below| - 1])
      case Close => below == [] || Halts(text, it + 1, below[|below| - 1], NoState, below[..|below| - 1])
      case Key(next) => Halts(text, it + 1, kind, next, below)
      case Item => Halts(text, it, NoType, NoState, below + [Array])
      case Member => Halts(text, it + 1, NoType, NoState, below + [Object])
      case Take => Halts(text, it + 1, kind, os, below)
      case Skip => Halts(text, it + 1, kind, os, below)
  }

  /** Readers as the parser makes them: only objects have a position. */
  predicate Regular(r: Reader) {
    r.node.kind != Object ==> r.os == NoState
  }

  predicate HaltsAt(text: string, r: Reader, below: seq<Kind>)
    requires r.it <= |text|
  {
    Halts(text, r.it, r.node.kind, r.os, below)
  }

  /** The check goes on in the innermost holder, where it goes on behind a child. */
  predicate After(text: string, child: Parsed, below: seq<Kind>) {
    below == [] ||
    var it := if child.node.kind == Object || child.node.kind == Array then child.end + 1 else child.end;
    0 <= it <= |text| && Halts(text, it, below[|below| - 1], NoState, below[..|below| - 1])
  }

  /** What a holder makes of the last character in front of a NUL is what the check says of it. */
  lemma LastAgain(text: string, it: nat, kind: Kind, below: seq<Kind>)
    requires 0 < it <= |text| && At(text, it) == NUL && (kind == NoType || kind == String)
    requires below != [] && Holders(below)
    ensures Halts(text, it, kind, NoState, below)
      <==> Halts(text, it - 1, below[|below| - 1], NoState, below[..|below| - 1])
  {
    var holder, rest := below[|below| - 1], below[..|below| - 1];
    var c := text[it - 1];
    assert (rest + [Array])[|rest|] == Array;
    if holder == Array && (c == '"' || c == '{' || c == '[') {
      assert Halts(text, it - 1, Array, NoState, rest) == Halts(text, it - 1, NoType, NoState, rest + [Array]);
      var now := if c == '"' then String else if c == '{' then Object else Array;
      assert Halts(text, it - 1, NoType, NoState, rest + [Array]) == Halts(text, it, now, NoState, rest + [Array]);
      assert Halts(text, it, now, NoState, rest + [Array]) <==> c != '"';
    }
  }

  lemma HoldersLess(below: seq<Kind>, kind: Kind)
    requires Holders(below)
    ensures below != [] ==> Holders(below[..|below| - 1])
    ensures kind == Array || kind == Object ==> Holders(below + [kind])
  {}

  lemma DoneAgrees(text: string, r: Reader, below: seq<Kind>)
    requires r.it <= |text| && Turn(text, r).Done? && Regular(r) && Holders(below)
    ensures HaltsAt(text, r, below) <==> After(text, Turn(text, r).result, below)
  {
    if At(text, r.it) == NUL {
      if below != [] && r.it > 0 && r.node.kind != Array && r.node.kind != Object {
        LastAgain(text, r.it, r.node.kind, below);
      } else if below != [] {
        assert Holders(below[..|below| - 1]);
      }
    }
  }

  lemma GoAgrees(text: string, r: Reader, below: seq<Kind>)
    requires r.it <= |text| && Turn(text, r).Go? && Regular(r)
    ensures var next := Turn(text, r).next;
      r.it < next.it <= |text| && Regular(next) && (HaltsAt(text, r, below) <==> HaltsAt(text, next, below))
  {}

  /** A child is checked on top of its holder. */
  lemma CallAgrees(text: string, r: Reader, below: seq<Kind>)
    requires r.it <= |text| && Turn(text, r).Call?
    ensures r.node.kind == Array || r.node.kind == Object
    ensures HaltsAt(text, r, below) <==> HaltsAt(text, Start(r.it, FRESH), below + [r.node.kind])
  {}

  lemma ResumeAgrees(text: string, r: Reader, child: Parsed, below: seq<Kind>)
    requires Regular(r) && (r.node.kind == Array || r.node.kind == Object) && child.end >= 0 && Resume(r, child).it <= |text|
    ensures Regular(Resume(r, child))
    ensures HaltsAt(text, Resume(r, child), below) <==> After(text, child, below + [r.node.kind])
  {
    OnTop(below, r.node.kind);
  }

  lemma OnTop(below: seq<Kind>, kind: Kind)
    ensures (below + [kind])[..|below|] == below && (below + [kind])[|below|] == kind
  {}

  /** A parse that comes back leaves the check where it leaves the holder. */
  lemma {:induction false} HaltsAsHolder(text: string, r: Reader, below: seq<Kind>, fuel: nat)
    requires Scan(text, r, fuel).Some? && Regular(r) && Holders(below)
    ensures HaltsAt(text, r, below) <==> After(text, Scan(text, r, fuel).value, below)
    decreases fuel
  {
    hide Halts, HaltsAt, After, Regular, Resume, Holders;
    match Turn(text, r)
    case Done(_) => DoneAgrees(text, r, below);
    case Go(next) =>
      GoAgrees(text, r, below);
      HaltsAsHolder(text, next, below, fuel - 1);
    case Call =>
      CallAgrees(text, r, below);
      HoldersLess(below, r.node.kind);
      StartRegular(r.it);
      HaltsAsHolder(text, Start(r.it, FRESH), below + [r.node.kind], fuel - 1);
      var child := Scan(text, Start(r.it, FRESH), fuel - 1).value;
      ResumeAgrees(text, r, child, below);
      HaltsAsHolder(text, Resume(r, child), below, fuel - 1);
  }

  lemma StartRegular(it: nat)
    ensures Regular(Start(it, FRESH))
  {}

  /** Rounds that are enough for a parse that comes back. */
  function Rounds(text: string, r: Reader): nat
    requires r.it <= |text|
  {
    3 * (|text| - r.it) + (match r.node.kind case Array => 2 case Object => (if r.os == GotKey then 3 else 2) case _ => 1)
  }

  /** An array that stands on a quote in front of a NUL fails the check, so behind an element its cursor has moved. */
  lemma ElementMoves(text: string, r: Reader, fuel: nat, below: seq<Kind>)
    requires r.it <= |text| && r.node.kind == Array && Turn(text, r).Call? && HaltsAt(text, r, below)
    requires Scan(text, Start(r.it, FRESH), fuel).Some?
    ensures Scan(text, Start(r.it, FRESH), fuel).value.end >= 0
    ensures Resume(r, Scan(text, Start(r.it, FRESH), fuel).value).it > r.it
  {
    var first := Start(r.it, FRESH);
    var open := Turn(text, first).next;
    assert (below + [Array])[|below|] == Array;
    Advance(text, first, fuel);
    if open.node.kind == String {
      if At(text, open.it) == NUL {
        assert !HaltsAt(text, open, below + [Array]);
        assert !HaltsAt(text, first, below + [Array]);
        CallAgrees(text, r, below);
        assert false;
      }
    } else {
      KindStays(text, open, fuel - 1);
    }
  }

  /** A text that passes the check is parsed. */
  lemma {:induction false} HaltsReturns(text: string, r: Reader, below: seq<Kind>, fuel: nat)
    requires r.it <= |text| && Regular(r) && Holders(below) && HaltsAt(text, r, below) && fuel >= Rounds(text, r)
    ensures Scan(text, r, fuel).Some?
    decreases fuel
  {
    hide Halts, HaltsAt, After, Regular, Holders, Resume;
    match Turn(text, r)
    case Done(_) =>
    case Stuck => StuckFails(text, r, below);
    case Go(next) =>
      GoAgrees(text, r, below);
      HaltsReturns(text, next, below, fuel - 1);
    case Call =>
      CallAgrees(text, r, below);
      HoldersLess(below, r.node.kind);
      StartRegular(r.it);
      HaltsReturns(text, Start(r.it, FRESH), below + [r.node.kind], fuel - 1);
      CallReturns(text, r, below, fuel);
      HaltsReturns(text, Resume(r, Scan(text, Start(r.it, FRESH), fuel - 1).value), below, fuel - 1);
  }

  lemma StuckFails(text: string, r: Reader, below: seq<Kind>)
    requires r.it <= |text| && Turn(text, r).Stuck?
    ensures !HaltsAt(text, r, below)
  {}

  /** Behind a child that came back the holder passes the check, nearer to the end. */
  lemma CallReturns(text: string, r: Reader, below: seq<Kind>, fuel: nat)
    requires r.it <= |text| && Regular(r) && Holders(below) && HaltsAt(text, r, below) && fuel >= Rounds(text, r)
    requires Turn(text, r).Call? && Scan(text, Start(r.it, FRESH), fuel - 1).Some?
    ensures var child := Scan(text, Start(r.it, FRESH), fuel - 1).value;
      && child.end >= 0
      && var next := Resume(r, child);
         next.it <= |text| && Regular(next) && HaltsAt(text, next, below) && fuel - 1 >= Rounds(text, next)
  {
    hide Halts, HaltsAt, Regular, Holders;
    CallAgrees(text, r, below);
    HoldersLess(below, r.node.kind);
    StartRegular(r.it);
    HaltsAsHolder(text, Start(r.it, FRESH), below + [r.node.kind], fuel - 1);
    var child := Scan(text, Start(r.it, FRESH), fuel - 1).value;
    if r.node.kind == Array {
      ElementMoves(text, r, fuel - 1, below);
    }
    ResumeAgrees(text, r, child, below);
    OnTop(below, r.node.kind);
  }

  /** For every text and every node: the parse comes back exactly when the check says so. */
  lemma HaltsExact(text: string, r: Reader)
    requires r.it <= |text| && Regular(r)
    ensures (exists fuel: nat :: Scan(text, r, fuel).Some?) <==> HaltsAt(text, r, [])
    ensures HaltsAt(text, r, []) <==> Scan(text, r, Rounds(text, r)).Some?
  {
    if fuel: nat :| Scan(text, r, fuel).Some? {
      HaltsAsHolder(text, r, [], fuel);
    }
    if HaltsAt(text, r, []) {
      HaltsReturns(text, r, [], Rounds(text, r));
    }
  }
}
