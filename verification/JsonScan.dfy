/**
 The specification of `JsonObject::parse`: a table-driven machine over a buffer. A NUL ends it
 where the machine looks at one; an escape steps over whatever stands behind its backslash.
 A node is a record with all four fields of the class, because a parse may start
 on a node that already holds values.
 */
module JsonScan {
  import opened Text

  datatype Kind = NoType | String | Object | Array

  datatype Json = Json(kind: Kind, str: string, obj: map<string, Json>, arr: seq<Json>)

  const FRESH := Json(NoType, "", map[], [])

  /** Position inside an object; the source's GETVALUE and GOTVALUE are never assigned. */
  datatype ObjState = NoState | GetKey | GotKey

  datatype Parsed = Parsed(node: Json, end: int)

  /** The reader between two characters: its cursor, the node it fills, its state and its buffer. */
  datatype Reader = Reader(it: nat, node: Json, os: ObjState, ss: string)

  /** `parse` called on `node` with the cursor at `it`. */
  function Start(it: nat, node: Json): Reader {
    Reader(it, node, NoState, "")
  }

  /** What one character makes the machine do. */
  datatype Action =
    | Open(kind: Kind)      // the node gets its type
    | Quoted                // the string is complete
    | Close                 // the object or array is complete
    | Key(next: ObjState)   // a key starts or ends
    | Item                  // an array element starts here
    | Member                // the value of a key starts here
    | Take                  // the character belongs to the string or key being read
    | Skip                  // the character is ignored

  function ActionOf(kind: Kind, os: ObjState, c: char): Action {
    match kind
    case NoType =>
      if c == '"' then Open(String)
      else if c == '{' then Open(Object)
      else if c == '[' then Open(Array)
      else Skip
    case String =>
      if c == '"' then Quoted else Take
    case Array =>
      if c == '"' || c == '{' || c == '[' then Item else if c == ']' || c == '}' then Close else Skip
    case Object =>
      match os
      case GetKey => if c == '"' then Key(GotKey) else Take
      case NoState => if c == '"' then Key(GetKey) else if c == '}' || c == ']' then Close else Skip
      case GotKey => if c == ':' then Member else if c == ']' then Close else Skip
  }

  /** The reader appends characters only inside a string and inside a key. */
  function Append(kind: Kind, os: ObjState, ss: string, c: char): string {
    if kind == String || (kind == Object && os == GetKey) then ss + [c] else ss
  }

  predicate Deleted(c: char) {
    c == 'n' || c == 'r' || c == 't'
  }

  /** One round of the source's loop. */
  datatype Round =
    | Stuck                 // the cursor has passed the terminator
    | Done(result: Parsed)
    | Go(next: Reader)
    | Call                  // a child value is parsed first

  function Turn(text: string, r: Reader): Round {
    if r.it > |text| then Stuck
    else if At(text, r.it) == NUL then Done(Parsed(r.node, r.it - 1))
    else if text[r.it] == '\\' then
      if r.it + 1 >= |text| then Stuck
      else if Deleted(text[r.it + 1]) then Go(r.(it := r.it + 2))
      else Go(r.(it := r.it + 2, ss := Append(r.node.kind, r.os, r.ss, text[r.it + 1])))
    else
      match ActionOf(r.node.kind, r.os, text[r.it])
      case Open(kind) => Go(r.(it := r.it + 1, node := r.node.(kind := kind)))
      case Quoted => Done(Parsed(r.node.(str := r.ss), r.it + 1))
      case Close => Done(Parsed(r.node, r.it))
      case Key(next) => Go(r.(it := r.it + 1, os := next))
      case Take => Go(r.(it := r.it + 1, ss := r.ss + [text[r.it]]))
      case Skip => Go(r.(it := r.it + 1))
      case Item => Call
      case Member => Call
  }

  /** The parent after a child: behind a child string, and behind the bracket a child stopped on. */
  function Resume(r: Reader, child: Parsed): Reader
    requires child.end >= 0
  {
    var it := if child.node.kind == Object || child.node.kind == Array then child.end + 1 else child.end;
    if r.node.kind == Array then r.(it := it, node := r.node.(arr := r.node.arr + [child.node]))
    else Start(it, r.node.(obj := r.node.obj[r.ss := child.node]))
  }

  /**
   Runs the reader to its end. None: the fuel is spent, or the cursor has passed the
   terminator (an escape at the very end of the text), where the source reads outside
   its buffer.
   */
  ghost function Scan(text: string, r: Reader, fuel: nat): (p: Option<Parsed>)
    ensures p.Some? ==> r.it <= |text| && p.value.end >= r.it - 1
    ensures p.Some? && At(text, r.it) != NUL ==> p.value.end >= r.it
    decreases fuel
  {
    if fuel == 0 then None
    else
      match Turn(text, r)
      case Stuck => None
      case Done(result) => Some(result)
      case Go(next) => Scan(text, next, fuel - 1)
      case Call =>
        var child := Scan(text, Start(r.it, FRESH), fuel - 1);
        if child.None? then None else Scan(text, Resume(r, child.value), fuel - 1)
  }

  /** A node keeps the type its first opening character gave it. */
  lemma {:induction false} KindStays(text: string, r: Reader, fuel: nat)
    requires r.node.kind != NoType && Scan(text, r, fuel).Some?
    ensures Scan(text, r, fuel).value.node.kind == r.node.kind
    decreases fuel
  {
    match Turn(text, r)
    case Done(_) =>
    case Go(next) => KindStays(text, next, fuel - 1);
    case Call => KindStays(text, Resume(r, Scan(text, Start(r.it, FRESH), fuel - 1).value), fuel - 1);
  }
}
