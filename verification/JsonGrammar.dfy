/**
 JSON texts by RFC 8259, as far as they are made of strings, objects and arrays: a recognizer
 written from sections 2 (white space and structural characters), 4 (objects), 5 (arrays) and
 7 (strings), and the texts themselves, with any white space wherever section 2 allows it.
 */
module JsonGrammar {
  import opened Text

  /** One character of a string as it is written. */
  datatype Unit =
    | Raw(c: char)
    | Short(c: char)          // a backslash and one character
    | Code(digits: string)    // a backslash, `u` and four hexadecimal digits

  datatype Member = Member(name: seq<Unit>, value: Value)

  datatype Value = Word(units: seq<Unit>) | Record(members: seq<Member>) | Sequence(values: seq<Value>)

  predicate Space(c: char) {
    c == ' ' || c == '\t' || c == '\n' || c == '\r'
  }

  predicate Hexadecimal(c: char) {
    '0' <= c <= '9' || 'a' <= c <= 'f' || 'A' <= c <= 'F'
  }

  predicate ShortEscape(c: char) {
    c == '"' || c == '\\' || c == '/' || c == 'b' || c == 'f' || c == 'n' || c == 'r' || c == 't'
  }

  predicate GoodUnit(u: Unit) {
    match u
    case Raw(c) => c >= ' ' && c != '"' && c != '\\'
    case Short(c) => ShortEscape(c)
    case Code(digits) => |digits| == 4 && forall k :: 0 <= k < 4 ==> Hexadecimal(digits[k])
  }

  // ----- The recognizer

  function SkipSpace(text: string, it: nat): (end: nat)
    requires it <= |text|
    ensures it <= end <= |text| && (end < |text| ==> !Space(text[end]))
    ensures forall k :: it <= k < end ==> Space(text[k])
    decreases |text| - it
  {
    if it < |text| && Space(text[it]) then SkipSpace(text, it + 1) else it
  }

  /** The next character of a string, and where it ends. */
  function NextUnit(text: string, it: nat): (r: Option<(Unit, nat)>)
    requires it < |text|
    ensures r.Some? ==> it < r.value.1 <= |text| && GoodUnit(r.value.0)
  {
    if text[it] != '\\' then
      if GoodUnit(Raw(text[it])) then Some((Raw(text[it]), it + 1)) else None
    else if it + 1 < |text| && ShortEscape(text[it + 1]) then Some((Short(text[it + 1]), it + 2))
    else if it + 6 <= |text| && text[it + 1] == 'u' && GoodUnit(Code(text[it + 2..it + 6])) then
      Some((Code(text[it + 2..it + 6]), it + 6))
    else None
  }

  /** A string from behind its opening quote to behind its closing quote. */
  function ReadUnits(text: string, it: nat): (r: Option<(seq<Unit>, nat)>)
    requires it <= |text|
    ensures r.Some? ==> it < r.value.1 <= |text|
    decreases |text| - it
  {
    if it == |text| then None
    else if text[it] == '"' then Some(([], it + 1))
    else
      match NextUnit(text, it)
      case None => None
      case Some((u, next)) =>
        match ReadUnits(text, next)
        case None => None
        case Some((rest, end)) => Some(([u] + rest, end))
  }

  /** A value that starts here, and where it ends. */
  function ReadValue(text: string, it: nat): (r: Option<(Value, nat)>)
    requires it <= |text|
    ensures r.Some? ==> it < r.value.1 <= |text|
    decreases |text| - it, 0
  {
    if it == |text| then None
    else if text[it] == '"' then
      match ReadUnits(text, it + 1)
      case None => None
      case Some((units, end)) => Some((Word(units), end))
    else if text[it] == '{' then
      var first := SkipSpace(text, it + 1);
      if first < |text| && text[first] == '}' then Some((Record([]), first + 1))
      else
        match ReadMembers(text, first)
        case None => None
        case Some((members, end)) => Some((Record(members), end))
    else if text[it] == '[' then
      var first := SkipSpace(text, it + 1);
      if first < |text| && text[first] == ']' then Some((Sequence([]), first + 1))
      else
        match ReadValues(text, first)
        case None => None
        case Some((values, end)) => Some((Sequence(values), end))
    else None
  }

  /** A name, its colon and its value, and the white space behind it. */
  function ReadPair(text: string, it: nat): (r: Option<(Member, nat)>)
    requires it <= |text|
    ensures r.Some? ==> it < r.value.1 <= |text|
    decreases |text| - it, 1
  {
    if it == |text| || text[it] != '"' then None
    else
      match ReadUnits(text, it + 1)
      case None => None
      case Some((name, end)) =>
        var colon := SkipSpace(text, end);
        if colon == |text| || text[colon] != ':' then None
        else
          match ReadValue(text, SkipSpace(text, colon + 1))
          case None => None
          case Some((value, behind)) => Some((Member(name, value), SkipSpace(text, behind)))
  }

  /** One or more members with exactly one comma between them, to behind the closing brace. */
  function ReadMembers(text: string, it: nat): (r: Option<(seq<Member>, nat)>)
    requires it <= |text|
    ensures r.Some? ==> it < r.value.1 <= |text|
    decreases |text| - it, 2
  {
    match ReadPair(text, it)
    case None => None
    case Some((member, behind)) =>
      if behind == |text| then None
      else if text[behind] == '}' then Some(([member], behind + 1))
      else if text[behind] == ',' then
        match ReadMembers(text, SkipSpace(text, behind + 1))
        case None => None
        case Some((rest, end)) => Some(([member] + rest, end))
      else None
  }

  /** One or more values with exactly one comma between them, to behind the closing bracket. */
  function ReadValues(text: string, it: nat): (r: Option<(seq<Value>, nat)>)
    requires it <= |text|
    ensures r.Some? ==> it < r.value.1 <= |text|
    decreases |text| - it, 1
  {
    match ReadValue(text, it)
    case None => None
    case Some((value, end)) =>
      var behind := SkipSpace(text, end);
      if behind == |text| then None
      else if text[behind] == ']' then Some(([value], behind + 1))
      else if text[behind] == ',' then
        match ReadValues(text, SkipSpace(text, behind + 1))
        case None => None
        case Some((rest, last)) => Some(([value] + rest, last))
      else None
  }

  /** A whole text: one value with white space around it. */
  function ReadText(text: string): Option<Value> {
    match ReadValue(text, SkipSpace(text, 0))
    case None => None
    case Some((value, end)) => if SkipSpace(text, end) == |text| then Some(value) else None
  }

  // ----- The texts

  /** A value as it is written, with the white space in front of and behind each token inside. */
  datatype Tree =
    | WordTree(units: seq<Unit>)
    | RecordTree(blank: string, branches: seq<Branch>)      // `blank` stands in an empty object
    | SequenceTree(blank: string, leaves: seq<Leaf>)

  datatype Branch = Branch(ahead: string, name: seq<Unit>, named: string, colon: string, value: Tree, behind: string)

  datatype Leaf = Leaf(ahead: string, value: Tree, behind: string)

  predicate Spaces(s: string) {
    forall k :: 0 <= k < |s| ==> Space(s[k])
  }

  function ShowUnit(u: Unit): string {
    match u
    case Raw(c) => [c]
    case Short(c) => ['\\', c]
    case Code(digits) => "\\u" + digits
  }

  function ShowUnits(units: seq<Unit>): string {
    if units == [] then "" else ShowUnit(units[0]) + ShowUnits(units[1..])
  }

  function ShowWord(units: seq<Unit>): string {
    "\"" + ShowUnits(units) + "\""
  }

  function Show(t: Tree): string
    decreases t, 0
  {
    match t
    case WordTree(units) => ShowWord(units)
    case RecordTree(blank, branches) => "{" + (if branches == [] then blank else ShowBranches(branches)) + "}"
    case SequenceTree(blank, leaves) => "[" + (if leaves == [] then blank else ShowLeaves(leaves)) + "]"
  }

  function ShowBranch(b: Branch): string
    decreases b, 0
  {
    b.ahead + (ShowWord(b.name) + (b.named + (":" + (b.colon + (Show(b.value) + b.behind)))))
  }

  function ShowBranches(branches: seq<Branch>): string
    decreases branches, 1
  {
    if branches == [] then ""
    else if |branches| == 1 then ShowBranch(branches[0])
    else ShowBranch(branches[0]) + ("," + ShowBranches(branches[1..]))
  }

  function ShowLeaf(l: Leaf): string
    decreases l, 0
  {
    l.ahead + (Show(l.value) + l.behind)
  }

  function ShowLeaves(leaves: seq<Leaf>): string
    decreases leaves, 1
  {
    if leaves == [] then ""
    else if |leaves| == 1 then ShowLeaf(leaves[0])
    else ShowLeaf(leaves[0]) + ("," + ShowLeaves(leaves[1..]))
  }

  /** Only white space between the tokens, and well-formed strings. */
  predicate GoodUnits(units: seq<Unit>) {
    forall k :: 0 <= k < |units| ==> GoodUnit(units[k])
  }

  predicate Good(t: Tree)
    decreases t, 0
  {
    match t
    case WordTree(units) => GoodUnits(units)
    case RecordTree(blank, branches) => Spaces(blank) && forall k :: 0 <= k < |branches| ==> GoodBranch(branches[k])
    case SequenceTree(blank, leaves) => Spaces(blank) && forall k :: 0 <= k < |leaves| ==> GoodLeaf(leaves[k])
  }

  predicate GoodBranch(b: Branch)
    decreases b, 0
  {
    Spaces(b.ahead) && GoodUnits(b.name) && Spaces(b.named) && Spaces(b.colon) && Good(b.value) && Spaces(b.behind)
  }

  predicate GoodLeaf(l: Leaf)
    decreases l, 0
  {
    Spaces(l.ahead) && Good(l.value) && Spaces(l.behind)
  }

  function ValueOf(t: Tree): Value
    decreases t, 0
  {
    match t
    case WordTree(units) => Word(units)
    case RecordTree(_, branches) => Record(MembersOf(branches))
    case SequenceTree(_, leaves) => Sequence(ValuesOf(leaves))
  }

  function MembersOf(branches: seq<Branch>): seq<Member>
    decreases branches, 1
  {
    if branches == [] then [] else [Member(branches[0].name, ValueOf(branches[0].value))] + MembersOf(branches[1..])
  }

  function ValuesOf(leaves: seq<Leaf>): seq<Value>
    decreases leaves, 1
  {
    if leaves == [] then [] else [ValueOf(leaves[0].value)] + ValuesOf(leaves[1..])
  }

  // ----- Every text is recognized

  lemma {:induction false} SkipSpaces(text: string, it: nat, s: string)
    requires Occurs(text, it, s) && Spaces(s)
    ensures it + |s| <= |text| && SkipSpace(text, it) == SkipSpace(text, it + |s|)
    decreases |s|
  {
    if s != "" {
      assert text[it] == text[it..it + |s|][0] == s[0];
      assert text[it + 1..it + |s|] == text[it..it + |s|][1..] == s[1..];
      SkipSpaces(text, it + 1, s[1..]);
    }
  }

  lemma SkipNothing(text: string, it: nat)
    requires it < |text| && !Space(text[it])
    ensures SkipSpace(text, it) == it
  {}

  /** White space in front of a character that is none. */
  lemma SkipTo(text: string, it: nat, s: string, c: char, rest: string)
    requires Occurs(text, it, s + ([c] + rest)) && Spaces(s) && !Space(c)
    ensures it + |s| < |text| && text[it + |s|] == c && SkipSpace(text, it) == it + |s| && Occurs(text, it + |s| + 1, rest)
  {
    OccursSplit(text, it, s, [c] + rest);
    OccursSplit(text, it + |s|, [c], rest);
    assert text[it + |s|] == text[it + |s|..it + |s| + 1][0] == c;
    SkipSpaces(text, it, s);
    SkipNothing(text, it + |s|);
  }

  lemma UnitRead(text: string, it: nat, u: Unit)
    requires Occurs(text, it, ShowUnit(u)) && GoodUnit(u)
    ensures it < |text| && text[it] != '"' && NextUnit(text, it) == Some((u, it + |ShowUnit(u)|))
  {
    var s := ShowUnit(u);
    assert forall k :: 0 <= k < |s| ==> text[it + k] == text[it..it + |s|][k] == s[k];
    match u
    case Raw(c) => assert text[it] == s[0] == c;
    case Short(c) => assert text[it] == s[0] == '\\' && text[it + 1] == s[1] == c;
    case Code(digits) =>
      assert s[2..] == digits && |s| == 6;
      assert text[it] == s[0] == '\\' && text[it + 1] == s[1] == 'u';
      assert text[it + 2..it + 6] == text[it..it + 6][2..] == digits;
  }

  lemma {:induction false} UnitsRead(text: string, it: nat, units: seq<Unit>)
    requires Occurs(text, it, ShowUnits(units) + "\"") && GoodUnits(units)
    ensures it + |ShowUnits(units)| < |text| && ReadUnits(text, it) == Some((units, it + |ShowUnits(units)| + 1))
    decreases |units|
  {
    hide Occurs, NextUnit, ShowUnit, GoodUnit;
    if units == [] {
      assert ShowUnits(units) + "\"" == "\"";
      LoneOccurs(text, it, '\"');
    } else {
      var u, rest := units[0], units[1..];
      assert ShowUnits(units) + "\"" == ShowUnit(u) + (ShowUnits(rest) + "\"");
      OccursSplit(text, it, ShowUnit(u), ShowUnits(rest) + "\"");
      UnitRead(text, it, u);
      UnitsRead(text, it + |ShowUnit(u)|, rest);
      assert units == [u] + rest;
    }
  }

  lemma WordRead(text: string, it: nat, units: seq<Unit>)
    requires Occurs(text, it, ShowWord(units)) && GoodUnits(units)
    ensures it + |ShowWord(units)| <= |text| && text[it] == '"'
    ensures ReadUnits(text, it + 1) == Some((units, it + |ShowWord(units)|))
  {
    hide Occurs, ShowUnits, ReadUnits;
    assert ShowWord(units) == "\"" + (ShowUnits(units) + "\"");
    OccursSplit(text, it, "\"", ShowUnits(units) + "\"");
    LoneOccurs(text, it, '\"');
    UnitsRead(text, it + 1, units);
  }

  lemma ShowStarts(t: Tree)
    ensures var s := Show(t); s != "" && (s[0] == '"' || s[0] == '{' || s[0] == '[') && !Space(s[0])
  {}

  lemma Starts(text: string, it: nat, t: Tree)
    requires Occurs(text, it, Show(t))
    ensures it < |text| && text[it] == Show(t)[0] && SkipSpace(text, it) == it
  {
    ShowStarts(t);
    hide Show;
    assert text[it] == text[it..it + |Show(t)|][0] == Show(t)[0];
  }

  /** Wherever a written value stands in a text, the recognizer reads that value and ends behind it. */
  lemma {:induction false} TreeRead(text: string, it: nat, t: Tree)
    requires Occurs(text, it, Show(t)) && Good(t)
    ensures it + |Show(t)| <= |text| && ReadValue(text, it) == Some((ValueOf(t), it + |Show(t)|))
    decreases t, 0
  {
    hide Occurs, ReadUnits, ReadMembers, ReadValues, ShowBranches, ShowLeaves, ShowWord, GoodUnits, GoodBranch, GoodLeaf;
    match t
    case WordTree(units) => WordRead(text, it, units);
    case RecordTree(blank, branches) =>
      if branches == [] {
        EmptyRead(text, it, '{', blank, '}');
      } else {
        var body := ShowBranches(branches);
        assert "{" + body + "}" == "{" + (body + "}");
        FirstOccurs(text, it, '{', body + "}");
        BranchesRead(text, it + 1, branches);
      }
    case SequenceTree(blank, leaves) =>
      if leaves == [] {
        EmptyRead(text, it, '[', blank, ']');
      } else {
        var body := ShowLeaves(leaves);
        assert "[" + body + "]" == "[" + (body + "]");
        FirstOccurs(text, it, '[', body + "]");
        LeavesRead(text, it + 1, leaves);
      }
  }

  lemma EmptyRead(text: string, it: nat, open: char, blank: string, close: char)
    requires Occurs(text, it, [open] + blank + [close]) && Spaces(blank) && !Space(close)
    ensures it + |blank| + 1 < |text| && text[it] == open && text[it + 1 + |blank|] == close
    ensures SkipSpace(text, it + 1) == it + 1 + |blank|
  {
    hide Occurs;
    assert [open] + blank + [close] == [open] + (blank + [close]);
    FirstOccurs(text, it, open, blank + [close]);
    assert [close] == [close] + "";
    SkipTo(text, it + 1, blank, close, "");
  }

  lemma {:induction false} BranchRead(text: string, it: nat, b: Branch, rest: string)
    requires Occurs(text, it, ShowBranch(b) + rest) && GoodBranch(b) && rest != "" && !Space(rest[0])
    ensures var first := SkipSpace(text, it);
      var end := it + |ShowBranch(b)|;
      && first < |text| && text[first] == '"'
      && end < |text| && Occurs(text, end, rest)
      && ReadPair(text, first) == Some((Member(b.name, ValueOf(b.value)), end))
    decreases b, 0
  {
    hide Occurs, ReadUnits, ReadValue, ShowWord, ShowBranch, Show, GoodUnits, Good, Spaces, Space, SkipSpace;
    BranchParts(text, it, b, rest);
    var first := it + |b.ahead|;
    var end := first + |ShowWord(b.name)|;
    var colon := end + |b.named|;
    var value := colon + 1 + |b.colon|;
    WordRead(text, first, b.name);
    TreeRead(text, value, b.value);
  }

  /** Where the tokens of a member stand. */
  lemma BranchParts(text: string, it: nat, b: Branch, rest: string)
    requires Occurs(text, it, ShowBranch(b) + rest) && GoodBranch(b) && rest != "" && !Space(rest[0])
    ensures var first := it + |b.ahead|;
      var end := first + |ShowWord(b.name)|;
      var colon := end + |b.named|;
      var value := colon + 1 + |b.colon|;
      var behind := value + |Show(b.value)|;
      && SkipSpace(text, it) == first && Occurs(text, first, ShowWord(b.name)) && end <= colon < |text|
      && SkipSpace(text, end) == colon && text[colon] == ':'
      && value <= |text| && SkipSpace(text, colon + 1) == value && Occurs(text, value, Show(b.value)) && behind <= |text|
      && SkipSpace(text, behind) == it + |ShowBranch(b)| < |text| && Occurs(text, it + |ShowBranch(b)|, rest)
  {
    WordStarts(b.name);
    ShowStarts(b.value);
    hide Occurs, ShowWord, Show, SkipSpace, GoodUnits, Good, Spaces;
    var word, shown := ShowWord(b.name), Show(b.value);
    Places(text, it, b.ahead, word, b.named, b.colon, shown, b.behind, rest);
    SkipBefore(text, it, b.ahead, word);
    var end := it + |b.ahead| + |word|;
    SkipBefore(text, end, b.named, ":");
    var colon := end + |b.named|;
    SkipBefore(text, colon + 1, b.colon, shown);
    SkipBefore(text, colon + 1 + |b.colon| + |shown|, b.behind, rest);
  }

  lemma WordStarts(units: seq<Unit>)
    ensures ShowWord(units) != "" && ShowWord(units)[0] == '"'
  {}

  lemma Places(text: string, it: nat, a: string, b: string, c: string, d: string, e: string, f: string, rest: string)
    requires Occurs(text, it, (a + (b + (c + (":" + (d + (e + f)))))) + rest)
    ensures Occurs(text, it, a) && Occurs(text, it + |a|, b) && Occurs(text, it + |a| + |b|, c)
    ensures var colon := it + |a| + |b| + |c|;
      && Occurs(text, colon, ":") && Occurs(text, colon + 1, d) && Occurs(text, colon + 1 + |d|, e)
      && Occurs(text, colon + 1 + |d| + |e|, f) && Occurs(text, colon + 1 + |d| + |e| + |f|, rest)
      && colon + 1 + |d| + |e| + |f| == it + |a + (b + (c + (":" + (d + (e + f)))))|
  {
    hide Occurs;
    OccursSplit(text, it, a + (b + (c + (":" + (d + (e + f))))), rest);
    OccursSplit(text, it, a, b + (c + (":" + (d + (e + f)))));
    OccursSplit(text, it + |a|, b, c + (":" + (d + (e + f))));
    OccursSplit(text, it + |a| + |b|, c, ":" + (d + (e + f)));
    var colon := it + |a| + |b| + |c|;
    OccursSplit(text, colon, ":", d + (e + f));
    OccursSplit(text, colon + 1, d, e + f);
    OccursSplit(text, colon + 1 + |d|, e, f);
  }

  /** White space in front of a text that starts with none. */
  lemma SkipBefore(text: string, it: nat, s: string, next: string)
    requires Occurs(text, it, s) && Occurs(text, it + |s|, next) && Spaces(s) && next != "" && !Space(next[0])
    ensures it + |s| < |text| && text[it + |s|] == next[0] && SkipSpace(text, it) == it + |s|
  {
    assert text[it + |s|] == text[it + |s|..it + |s| + |next|][0] == next[0];
    SkipSpaces(text, it, s);
    SkipNothing(text, it + |s|);
  }

  lemma {:induction false} BranchesRead(text: string, it: nat, branches: seq<Branch>)
    requires Occurs(text, it, ShowBranches(branches) + "}") && branches != []
    requires forall k :: 0 <= k < |branches| ==> GoodBranch(branches[k])
    ensures var first := SkipSpace(text, it);
      && it + |ShowBranches(branches)| < |text| && first < |text| && text[first] != '}'
      && ReadMembers(text, first) == Some((MembersOf(branches), it + |ShowBranches(branches)| + 1))
    decreases branches, 1
  {
    hide Occurs, ReadPair, ReadMembers, ShowBranch, GoodBranch, SkipSpace, ShowBranches, MembersOf, ValueOf;
    var b := branches[0];
    OneBranch(branches);
    if |branches| == 1 {
      assert ['}'] + "" == "}";
      BranchRead(text, it, b, "}");
      FirstOccurs(text, it + |ShowBranch(b)|, '}', "");
      LastMember(text, SkipSpace(text, it));
    } else {
      var more := branches[1..];
      var rest := "," + (ShowBranches(more) + "}");
      BranchRead(text, it, b, rest);
      FirstOccurs(text, it + |ShowBranch(b)|, ',', ShowBranches(more) + "}");
      BranchesRead(text, it + |ShowBranch(b)| + 1, more);
      MoreMembers(text, SkipSpace(text, it));
    }
  }

  lemma LastMember(text: string, it: nat)
    requires it <= |text| && ReadPair(text, it).Some?
    requires var behind := ReadPair(text, it).value.1; behind < |text| && text[behind] == '}'
    ensures var (member, behind) := ReadPair(text, it).value; ReadMembers(text, it) == Some(([member], behind + 1))
  {
    hide ReadPair;
  }

  lemma MoreMembers(text: string, it: nat)
    requires it <= |text| && ReadPair(text, it).Some?
    requires var behind := ReadPair(text, it).value.1; behind < |text| && text[behind] == ','
    requires ReadMembers(text, SkipSpace(text, ReadPair(text, it).value.1 + 1)).Some?
    ensures var (member, behind) := ReadPair(text, it).value;
      var (rest, end) := ReadMembers(text, SkipSpace(text, behind + 1)).value;
      ReadMembers(text, it) == Some(([member] + rest, end))
  {
    hide ReadPair;
  }

  lemma OneBranch(branches: seq<Branch>)
    requires branches != []
    ensures var b, more := branches[0], branches[1..];
      && MembersOf(branches) == [Member(b.name, ValueOf(b.value))] + MembersOf(more)
      && (if |branches| == 1 then ShowBranches(branches) == ShowBranch(b) && MembersOf(branches) == [Member(b.name, ValueOf(b.value))]
          else ShowBranches(branches) + "}" == ShowBranch(b) + ("," + (ShowBranches(more) + "}"))
               && |ShowBranches(branches)| == |ShowBranch(b)| + 1 + |ShowBranches(more)|)
  {
    hide ShowBranch;
  }

  lemma {:induction false} LeafRead(text: string, it: nat, l: Leaf, rest: string)
    requires Occurs(text, it, ShowLeaf(l) + rest) && GoodLeaf(l) && rest != "" && !Space(rest[0])
    ensures var first := SkipSpace(text, it);
      var end := first + |Show(l.value)|;
      && first < |text| && text[first] != ']'
      && end <= |text| && ReadValue(text, first) == Some((ValueOf(l.value), end))
      && SkipSpace(text, end) == it + |ShowLeaf(l)| < |text| && Occurs(text, it + |ShowLeaf(l)|, rest)
    decreases l, 0
  {
    hide Occurs, Show, SkipSpace, ReadValue;
    OccursSplit(text, it, ShowLeaf(l), rest);
    OccursSplit(text, it, l.ahead, Show(l.value) + l.behind);
    var first := it + |l.ahead|;
    OccursSplit(text, first, Show(l.value), l.behind);
    ShowStarts(l.value);
    SkipBefore(text, it, l.ahead, Show(l.value));
    SkipBefore(text, first + |Show(l.value)|, l.behind, rest);
    TreeRead(text, first, l.value);
  }

  lemma {:induction false} LeavesRead(text: string, it: nat, leaves: seq<Leaf>)
    requires Occurs(text, it, ShowLeaves(leaves) + "]") && leaves != []
    requires forall k :: 0 <= k < |leaves| ==> GoodLeaf(leaves[k])
    ensures var first := SkipSpace(text, it);
      && it + |ShowLeaves(leaves)| < |text| && first < |text| && text[first] != ']'
      && ReadValues(text, first) == Some((ValuesOf(leaves), it + |ShowLeaves(leaves)| + 1))
    decreases leaves, 1
  {
    hide Occurs, ReadValue, ReadValues, ShowLeaf, GoodLeaf, SkipSpace, ShowLeaves, ValuesOf, ValueOf;
    var l := leaves[0];
    OneLeaf(leaves);
    if |leaves| == 1 {
      assert [']'] + "" == "]";
      LeafRead(text, it, l, "]");
      FirstOccurs(text, it + |ShowLeaf(l)|, ']', "");
      LastValue(text, SkipSpace(text, it));
    } else {
      var more := leaves[1..];
      var rest := "," + (ShowLeaves(more) + "]");
      LeafRead(text, it, l, rest);
      FirstOccurs(text, it + |ShowLeaf(l)|, ',', ShowLeaves(more) + "]");
      LeavesRead(text, it + |ShowLeaf(l)| + 1, more);
      MoreValues(text, SkipSpace(text, it));
    }
  }

  lemma LastValue(text: string, it: nat)
    requires it <= |text| && ReadValue(text, it).Some?
    requires var behind := SkipSpace(text, ReadValue(text, it).value.1); behind < |text| && text[behind] == ']'
    ensures var (value, end) := ReadValue(text, it).value; ReadValues(text, it) == Some(([value], SkipSpace(text, end) + 1))
  {
    hide ReadValue;
  }

  lemma MoreValues(text: string, it: nat)
    requires it <= |text| && ReadValue(text, it).Some?
    requires var behind := SkipSpace(text, ReadValue(text, it).value.1); behind < |text| && text[behind] == ','
    requires ReadValues(text, SkipSpace(text, SkipSpace(text, ReadValue(text, it).value.1) + 1)).Some?
    ensures var (value, end) := ReadValue(text, it).value;
      var (rest, last) := ReadValues(text, SkipSpace(text, SkipSpace(text, end) + 1)).value;
      ReadValues(text, it) == Some(([value] + rest, last))
  {
    hide ReadValue;
  }

  lemma OneLeaf(leaves: seq<Leaf>)
    requires leaves != []
    ensures var l, more := leaves[0], leaves[1..];
      && ValuesOf(leaves) == [ValueOf(l.value)] + ValuesOf(more)
      && (if |leaves| == 1 then ShowLeaves(leaves) == ShowLeaf(l) && ValuesOf(leaves) == [ValueOf(l.value)]
          else ShowLeaves(leaves) + "]" == ShowLeaf(l) + ("," + (ShowLeaves(more) + "]"))
               && |ShowLeaves(leaves)| == |ShowLeaf(l)| + 1 + |ShowLeaves(more)|)
  {
    hide ShowLeaf;
  }

  /** A written value with white space around it is a text. */
  lemma TextRead(before: string, t: Tree, behind: string)
    requires Spaces(before) && Good(t) && Spaces(behind)
    ensures ReadText(before + Show(t) + behind) == Some(ValueOf(t))
  {
    hide Show, ReadValue;
    var text := before + Show(t) + behind;
    OccursSelf(text);
    OccursSplit(text, 0, before + Show(t), behind);
    OccursSplit(text, 0, before, Show(t));
    ShowStarts(t);
    SkipBefore(text, 0, before, Show(t));
    TreeRead(text, |before|, t);
    SkipSpaces(text, |before| + |Show(t)|, behind);
  }
}
