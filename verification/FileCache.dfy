/**
 The file cache of the web server (`respond_http`, `respond_cached_file`): routes are
 cleaned, files are kept with their modification time, and the capacity is a budget of bytes
 that is never given back.
 */
module FileCache {
  import opened Text

  const BUFFER_LIMIT: nat := 8192

  datatype File = File(bytes: string, modified: int)
  datatype Node = Regular(file: File) | Directory | Special
  type Disk = map<string, Node>

  // ----- Routes

  /** The route without any dot that another dot follows. */
  function Clean(route: string): string {
    if route == "" then ""
    else if |route| > 1 && route[0] == '.' && route[1] == '.' then Clean(route[1..])
    else [route[0]] + Clean(route[1..])
  }

  /** The path a route names and the regular file there. */
  function Resolve(disk: Disk, directory: string, route: string): Option<(string, File)> {
    var path := directory + Clean(route);
    if path !in disk then None
    else
      var full := if disk[path].Directory? then path + "/index.html" else path;
      if full in disk && disk[full].Regular? then Some((full, disk[full].file)) else None
  }

  /** No cleaned route climbs: two dots never meet. */
  lemma {:induction false} CleanNeverClimbs(route: string)
    ensures forall i :: 0 < i < |Clean(route)| ==> !(Clean(route)[i - 1] == '.' && Clean(route)[i] == '.')
    ensures route != "" ==> Clean(route) != "" && (Clean(route)[0] == '.' <==> route[0] == '.')
  {
    if route != "" {
      CleanNeverClimbs(route[1..]);
    }
  }

  /** A route without two dots in a row is its own clean form, and only such a route. */
  lemma {:induction false} CleanExact(route: string)
    ensures |Clean(route)| <= |route|
    ensures Clean(route) == route <==> forall i :: 0 < i < |route| ==> !(route[i - 1] == '.' && route[i] == '.')
  {
    if route != "" {
      var rest := route[1..];
      CleanExact(rest);
      if |route| > 1 && route[0] == '.' && route[1] == '.' {
      } else {
        assert Clean(route)[1..] == Clean(rest);
        assert Clean(route) == route <==> Clean(rest) == rest;
        assert forall i :: 0 < i < |rest| ==> rest[i] == route[i + 1];
        if forall i :: 0 < i < |rest| ==> !(rest[i - 1] == '.' && rest[i] == '.') {
          forall i | 0 < i < |route| ensures !(route[i - 1] == '.' && route[i] == '.') {
            if i > 1 {
              assert rest[i - 1] == route[i];
            }
          }
        } else {
          var i :| 0 < i < |rest| && rest[i - 1] == '.' && rest[i] == '.';
          assert route[i + 1 - 1] == '.' && route[i + 1] == '.';
        }
      }
    }
  }

  // ----- Sending in chunks

  /** The pieces `respond_cached_file` sends: full ones, and a last one that is not full. */
  function Chunks(data: string): (r: seq<string>)
    ensures r != []
  {
    if |data| < BUFFER_LIMIT then [data] else [data[..BUFFER_LIMIT]] + Chunks(data[BUFFER_LIMIT..])
  }

  function Join(chunks: seq<string>): string {
    if chunks == [] then "" else chunks[0] + Join(chunks[1..])
  }

  lemma OneMore(n: nat)
    ensures (n + BUFFER_LIMIT) / BUFFER_LIMIT == n / BUFFER_LIMIT + 1
    ensures (n + BUFFER_LIMIT) % BUFFER_LIMIT == n % BUFFER_LIMIT
  {}

  /** The chunks make up the data, only the last is short, and an exact multiple ends with an empty one. */
  lemma {:induction false} ChunksWhole(data: string)
    ensures Join(Chunks(data)) == data
    ensures |Chunks(data)| == |data| / BUFFER_LIMIT + 1
    ensures forall i :: 0 <= i < |Chunks(data)| - 1 ==> |Chunks(data)[i]| == BUFFER_LIMIT
    ensures |Chunks(data)[|Chunks(data)| - 1]| == |data| % BUFFER_LIMIT
  {
    var chunks := Chunks(data);
    if |data| < BUFFER_LIMIT {
      assert Join(chunks) == data + Join([]);
      assert |data| / BUFFER_LIMIT == 0;
    } else {
      var rest := data[BUFFER_LIMIT..];
      ChunksWhole(rest);
      OneMore(|rest|);
      assert chunks == [data[..BUFFER_LIMIT]] + Chunks(rest);
      hide Chunks;
      assert chunks[1..] == Chunks(rest);
      assert data == data[..BUFFER_LIMIT] + rest;
    }
  }

  lemma {:induction false} JoinPrefix(chunks: seq<string>, n: nat)
    requires n <= |chunks|
    ensures Join(chunks[..n]) <= Join(chunks)
  {
    if n > 0 {
      JoinPrefix(chunks[1..], n - 1);
      assert chunks[..n][1..] == chunks[1..][..n - 1];
    }
  }

  /** The sending loop; `sends` is the number of sends that succeed. */
  method SendChunks(data: array<char>, sends: nat) returns (chunks: seq<string>, sent: bool)
    ensures sent <==> |Chunks(data[..])| <= sends
    ensures chunks == if sent then Chunks(data[..]) else Chunks(data[..])[..sends]
  {
    chunks := [];
    var size, offset := BUFFER_LIMIT, 0;
    assert data[0..] == data[..];
    while size == BUFFER_LIMIT
      invariant size == BUFFER_LIMIT ==> offset <= data.Length && offset % BUFFER_LIMIT == 0
      invariant size == BUFFER_LIMIT ==> Chunks(data[..]) == chunks + Chunks(data[offset..])
      invariant size != BUFFER_LIMIT ==> Chunks(data[..]) == chunks
      invariant |chunks| <= sends
      decreases size == BUFFER_LIMIT, data.Length - offset
    {
      ghost var rest := data[offset..];
      if offset + size > data.Length {
        size := data.Length % BUFFER_LIMIT;
        assert size == data.Length - offset;
      }
      assert Chunks(rest) == if |rest| < BUFFER_LIMIT then [rest] else [rest[..BUFFER_LIMIT]] + Chunks(rest[BUFFER_LIMIT..]);
      if |chunks| == sends {
        return chunks, false;
      }
      assert data[offset..offset + size] == if |rest| < BUFFER_LIMIT then rest else rest[..BUFFER_LIMIT];
      chunks := chunks + [data[offset..offset + size]];
      offset := offset + size;
      assert size == BUFFER_LIMIT ==> rest[BUFFER_LIMIT..] == data[offset..];
    }
    sent := true;
  }

  // ----- The cache

  datatype Entry = Entry(bytes: string, modified: int)

  datatype Cache = Cache(entries: map<string, Entry>, remaining: int, charged: nat)

  /** How filling a new entry goes: whether the file opens and closes, and how many reads succeed. */
  datatype Fill = Fill(opens: bool, goodReads: nat, closes: bool)

  /** A request, with what the outside does meanwhile; `memory` is what fresh memory holds. */
  datatype Ask = Ask(route: string, head: bool, locks: bool, fill: Fill, memory: nat -> char, sends: nat)

  datatype Reply =
    | NotFound
    | Head(length: nat)
    | Failed
    | Page(bytes: string)                                  // the text that is then filled in as a template
    | Data(length: nat, chunks: seq<string>, sent: bool)
    | Direct                                               // sent from disk, past the cache

  /** Reads stop after the first that is not full. */
  predicate FillFails(fill: Fill, size: nat) {
    !fill.opens || fill.goodReads <= size / BUFFER_LIMIT || !fill.closes
  }

  /** The bytes of a new entry after some reads. */
  function Copied(bytes: string, fill: Fill, memory: nat -> char): (r: string)
    ensures |r| == |bytes|
  {
    var n := if fill.opens then fill.goodReads * BUFFER_LIMIT else 0;
    seq(|bytes|, i requires 0 <= i < |bytes| => if i < n then bytes[i] else memory(i))
  }

  /** A file that changed since is dropped; its bytes are not given back. */
  function Checked(c: Cache, path: string, file: File): Cache {
    if path in c.entries && file.modified != c.entries[path].modified then c.(entries := c.entries - {path}) else c
  }

  function Stored(c: Cache, path: string, e: Entry): Cache {
    c.(entries := c.entries[path := e], remaining := c.remaining - |e.bytes|, charged := c.charged + |e.bytes|)
  }

  predicate EndsWith(s: string, end: string) {
    |end| <= |s| && s[|s| - |end|..] == end
  }

  function Served(e: Entry, path: string, sends: nat): Reply {
    if |e.bytes| < BUFFER_LIMIT && EndsWith(path, ".html") then Page(e.bytes)
    else
      var chunks := Chunks(e.bytes);
      if |chunks| <= sends then Data(|e.bytes|, chunks, true) else Data(|e.bytes|, chunks[..sends], false)
  }

  /** `respond_http`. */
  function Respond(c: Cache, disk: Disk, directory: string, a: Ask): (Cache, Reply) {
    match Resolve(disk, directory, a.route)
    case None => (c, NotFound)
    case Some((path, file)) =>
      if a.head then (c, Head(|file.bytes|))
      else
        var checked := Checked(c, path, file);
        if path in checked.entries then (checked, Served(checked.entries[path], path, a.sends))
        else if checked.remaining <= |file.bytes| || !a.locks then (checked, Direct)
        else
          var stored := Stored(checked, path, Entry(Copied(file.bytes, a.fill, a.memory), file.modified));
          (stored, if FillFails(a.fill, |file.bytes|) then Failed else Served(stored.entries[path], path, a.sends))
  }

  /** A fill that succeeds copies the whole file, for every length. */
  lemma FillWhole(bytes: string, fill: Fill, memory: nat -> char)
    requires !FillFails(fill, |bytes|)
    ensures Copied(bytes, fill, memory) == bytes
  {
    assert |bytes| < (|bytes| / BUFFER_LIMIT + 1) * BUFFER_LIMIT <= fill.goodReads * BUFFER_LIMIT;
  }

  // ----- The budget

  ghost function Total(entries: map<string, Entry>): nat
    decreases |entries|
  {
    if entries == map[] then 0
    else
      var p :| p in entries;
      |entries[p].bytes| + Total(entries - {p})
  }

  /** The total does not depend on the order of adding. */
  lemma {:induction false} TotalSplit(entries: map<string, Entry>, p: string)
    requires p in entries
    ensures Total(entries) == |entries[p].bytes| + Total(entries - {p})
    decreases |entries|
  {
    var q :| q in entries && Total(entries) == |entries[q].bytes| + Total(entries - {q});
    if q != p {
      TotalSplit(entries - {q}, p);
      TotalSplit(entries - {p}, q);
      assert entries - {q} - {p} == entries - {p} - {q};
    }
  }

  /** Bytes are only moved from the budget to the account of cached files, which covers all that are kept. */
  predicate Budgeted(c: Cache, capacity: int) {
    c.remaining + c.charged == capacity && c.remaining >= 0
  }

  ghost predicate Covered(c: Cache) {
    Total(c.entries) <= c.charged
  }

  lemma RespondBudget(c: Cache, disk: Disk, directory: string, a: Ask, capacity: int)
    requires Budgeted(c, capacity) && Covered(c)
    ensures Budgeted(Respond(c, disk, directory, a).0, capacity) && Covered(Respond(c, disk, directory, a).0)
  {
    hide Copied, Clean, Served, Total;
    var resolved := Resolve(disk, directory, a.route);
    if resolved.Some? {
      var (path, file) := resolved.value;
      if path in c.entries {
        TotalSplit(c.entries, path);
      }
      var checked := Checked(c, path, file);
      assert Covered(checked);
      if path !in checked.entries {
        var e := Entry(Copied(file.bytes, a.fill, a.memory), file.modified);
        TotalSplit(checked.entries[path := e], path);
        assert checked.entries[path := e] - {path} == checked.entries;
      }
    }
  }

  // ----- Files that change

  /** The cache, the files, and every version each path ever had. */
  datatype Site = Site(cache: Cache, disk: Disk, versions: map<string, set<File>>)

  datatype Event = Asks(ask: Ask) | Edits(path: string, node: Node) | Removes(path: string)

  function VersionsOf(site: Site, path: string): set<File> {
    if path in site.versions then site.versions[path] else {}
  }

  function Happened(site: Site, directory: string, e: Event): Site {
    match e
    case Asks(ask) => site.(cache := Respond(site.cache, site.disk, directory, ask).0)
    case Removes(path) => site.(disk := site.disk - {path})
    case Edits(path, node) =>
      Site(site.cache, site.disk[path := node],
           if node.Regular? then site.versions[path := VersionsOf(site, path) + {node.file}] else site.versions)
  }

  /** No fill fails, and no modification time comes back with other bytes. */
  predicate Proper(site: Site, directory: string, e: Event) {
    match e
    case Asks(ask) =>
      var resolved := Resolve(site.disk, directory, ask.route);
      resolved.None? || !FillFails(ask.fill, |resolved.value.1.bytes|)
    case Removes(_) => true
    case Edits(path, node) =>
      node.Regular? ==> forall v :: v in VersionsOf(site, path) && v.modified == node.file.modified ==> v == node.file
  }

  /** Every kept entry is a version of its file, and versions are told apart by their times. */
  ghost predicate Faithful(site: Site) {
    && (forall p :: p in site.disk && site.disk[p].Regular? ==> site.disk[p].file in VersionsOf(site, p))
    && (forall p, v, w :: v in VersionsOf(site, p) && w in VersionsOf(site, p) && v.modified == w.modified ==> v == w)
    && (forall p :: p in site.cache.entries ==> File(site.cache.entries[p].bytes, site.cache.entries[p].modified) in VersionsOf(site, p))
  }

  /** After a request every entry is an old one or the file just read. */
  lemma RespondEntries(c: Cache, disk: Disk, directory: string, a: Ask, p: string)
    requires Resolve(disk, directory, a.route).Some? ==> !FillFails(a.fill, |Resolve(disk, directory, a.route).value.1.bytes|)
    requires p in Respond(c, disk, directory, a).0.entries
    ensures var e := Respond(c, disk, directory, a).0.entries[p];
      || (p in c.entries && e == c.entries[p])
      || (p in disk && disk[p].Regular? && File(e.bytes, e.modified) == disk[p].file)
  {
    hide Copied, Clean, Served;
    var resolved := Resolve(disk, directory, a.route);
    if resolved.Some? {
      FillWhole(resolved.value.1.bytes, a.fill, a.memory);
    }
  }

  lemma EditFaithful(site: Site, directory: string, e: Event)
    requires Faithful(site) && Proper(site, directory, e) && e.Edits?
    ensures Faithful(Happened(site, directory, e))
  {
    var next := Happened(site, directory, e);
    assert forall p :: p != e.path ==> VersionsOf(next, p) == VersionsOf(site, p);
    assert forall p :: VersionsOf(site, p) <= VersionsOf(next, p);
    assert VersionsOf(next, e.path) == VersionsOf(site, e.path) + if e.node.Regular? then {e.node.file} else {};
    hide VersionsOf;
  }

  lemma HappenedFaithful(site: Site, directory: string, e: Event)
    requires Faithful(site) && Proper(site, directory, e)
    ensures Faithful(Happened(site, directory, e))
  {
    hide Respond, Resolve;
    match e
    case Asks(ask) =>
      var next := Happened(site, directory, e);
      assert forall p :: VersionsOf(next, p) == VersionsOf(site, p);
      forall p | p in next.cache.entries
        ensures File(next.cache.entries[p].bytes, next.cache.entries[p].modified) in VersionsOf(site, p)
      {
        RespondEntries(site.cache, site.disk, directory, ask, p);
      }
    case Removes(_) =>
      assert forall p :: VersionsOf(Happened(site, directory, e), p) == VersionsOf(site, p);
    case Edits(path, node) => EditFaithful(site, directory, e);
  }

  /** What the reply carries, when everything was sent, and how much it announces. */
  predicate Carries(reply: Reply, bytes: string) {
    match reply
    case Page(page) => page == bytes
    case Data(length, chunks, sent) =>
      && length == |bytes| && Join(chunks) <= bytes && (sent ==> Join(chunks) == bytes)
      && forall i :: 0 <= i < |chunks| ==> |chunks[i]| <= BUFFER_LIMIT
    case _ => true
  }

  lemma ServedCarries(e: Entry, path: string, sends: nat)
    ensures Carries(Served(e, path, sends), e.bytes)
  {
    hide Chunks, Join;
    ChunksWhole(e.bytes);
    if sends <= |Chunks(e.bytes)| {
      JoinPrefix(Chunks(e.bytes), sends);
    }
  }

  /** Replies that do not come from the cache claim nothing. */
  lemma OthersCarry(reply: Reply, bytes: string)
    requires !reply.Page? && !reply.Data?
    ensures Carries(reply, bytes)
  {}

  /** A response from the cache carries the file's current bytes. */
  lemma ResponseCurrent(site: Site, directory: string, ask: Ask)
    requires Faithful(site) && Proper(site, directory, Asks(ask))
    ensures var resolved := Resolve(site.disk, directory, ask.route);
      resolved.Some? ==> Carries(Respond(site.cache, site.disk, directory, ask).1, resolved.value.1.bytes)
  {
    hide Copied, Clean, Served, Carries;
    var resolved := Resolve(site.disk, directory, ask.route);
    if resolved.Some? {
      var (path, file) := resolved.value;
      FillWhole(file.bytes, ask.fill, ask.memory);
      var checked := Checked(site.cache, path, file);
      var e := if path in checked.entries then checked.entries[path] else Entry(file.bytes, file.modified);
      assert e.bytes == file.bytes;
      ServedCarries(e, path, ask.sends);
      OthersCarry(Direct, file.bytes);
      OthersCarry(Head(|file.bytes|), file.bytes);
    }
  }

  // ----- Which answer

  /** A regular file at the path, or the index of a directory there. */
  predicate Found(disk: Disk, path: string, file: File) {
    path in disk &&
      (disk[path] == Regular(file)
       || (disk[path] == Directory && path + "/index.html" in disk && disk[path + "/index.html"] == Regular(file)))
  }

  /** A request is refused exactly when no regular file is found, and a HEAD request is else answered with the file's length. */
  lemma FoundExact(c: Cache, disk: Disk, directory: string, a: Ask)
    ensures var path, reply := directory + Clean(a.route), Respond(c, disk, directory, a).1;
      && (reply == NotFound <==> !exists file :: Found(disk, path, file))
      && (a.head ==> forall n :: reply == Head(n) <==> exists file :: Found(disk, path, file) && n == |file.bytes|)
      && (!a.head ==> !reply.Head?)
  {
    hide Copied, Clean, Served;
    hide Found, Resolve, Respond;
    var r := Resolve(disk, directory, a.route);
    FoundResolved(disk, directory, a.route);
    ServedKind(c, disk, directory, a);
    assert r.Some? ==> Found(disk, directory + Clean(a.route), r.value.1);
  }

  lemma FoundResolved(disk: Disk, directory: string, route: string)
    ensures var r := Resolve(disk, directory, route);
      forall file :: Found(disk, directory + Clean(route), file) <==> r.Some? && r.value.1 == file
  {
    hide Clean;
  }

  lemma ServedKind(c: Cache, disk: Disk, directory: string, a: Ask)
    ensures var reply := Respond(c, disk, directory, a).1;
      && (reply == NotFound <==> Resolve(disk, directory, a.route).None?)
      && (reply.Head? <==> Resolve(disk, directory, a.route).Some? && a.head)
      && (reply.Head? ==> reply.length == |Resolve(disk, directory, a.route).value.1.bytes|)
  {
    hide Copied, Resolve, Chunks;
  }

  /** The file's entry is up to date, or there is room for one and it can be filled. */
  predicate CanServe(c: Cache, path: string, file: File, a: Ask) {
    if path in c.entries && c.entries[path].modified == file.modified then true
    else c.remaining > |file.bytes| && a.locks && !FillFails(a.fill, |file.bytes|)
  }

  /** Then the answer comes from the cache: one page for small HTML, else chunks; and the next such request needs no room. */
  lemma FromCache(c: Cache, disk: Disk, directory: string, a: Ask, path: string, file: File)
    requires Resolve(disk, directory, a.route) == Some((path, file)) && !a.head && CanServe(c, path, file, a)
    ensures var (next, reply) := Respond(c, disk, directory, a);
      && path in next.entries && next.entries[path].modified == file.modified
      && (forall p :: p != path ==> (p in next.entries <==> p in c.entries) && (p in c.entries ==> next.entries[p] == c.entries[p]))
      && (if EndsWith(path, ".html") && |next.entries[path].bytes| < BUFFER_LIMIT then reply == Page(next.entries[path].bytes)
          else reply.Data? && reply.length == |next.entries[path].bytes|)
      && forall again: Ask :: again.route == a.route && !again.head ==> Respond(next, disk, directory, again).0 == next
  {
    hide Copied, Resolve, Chunks;
  }

  function Run(site: Site, directory: string, events: seq<Event>): Site
    decreases |events|
  {
    if events == [] then site else Run(Happened(site, directory, events[0]), directory, events[1..])
  }

  predicate AllProper(site: Site, directory: string, events: seq<Event>)
    decreases |events|
  {
    events == [] || (Proper(site, directory, events[0]) && AllProper(Happened(site, directory, events[0]), directory, events[1..]))
  }

  /** After any run of requests and changes, the next response from the cache carries the current bytes. */
  lemma {:induction false} AlwaysCurrent(site: Site, directory: string, events: seq<Event>, ask: Ask)
    requires Faithful(site) && AllProper(site, directory, events)
    requires Proper(Run(site, directory, events), directory, Asks(ask))
    ensures var last := Run(site, directory, events);
      var resolved := Resolve(last.disk, directory, ask.route);
      resolved.Some? ==> Carries(Respond(last.cache, last.disk, directory, ask).1, resolved.value.1.bytes)
    decreases |events|
  {
    hide Faithful, Happened, Respond, Resolve, Carries;
    if events == [] {
      ResponseCurrent(site, directory, ask);
    } else {
      HappenedFaithful(site, directory, events[0]);
      AlwaysCurrent(Happened(site, directory, events[0]), directory, events[1..], ask);
    }
  }

  /** Over any run, whether or not fills fail, what is left and what was ever cached make up the capacity, and all kept files fit in it. */
  lemma {:induction false} RunBudget(site: Site, directory: string, events: seq<Event>, capacity: int)
    requires Budgeted(site.cache, capacity) && Covered(site.cache)
    ensures Budgeted(Run(site, directory, events).cache, capacity) && Total(Run(site, directory, events).cache.entries) <= capacity
    decreases |events|
  {
    hide Respond, Resolve, Total;
    if events != [] {
      if events[0].Asks? {
        RespondBudget(site.cache, site.disk, directory, events[0].ask, capacity);
      }
      RunBudget(Happened(site, directory, events[0]), directory, events[1..], capacity);
    }
  }

  /** A cached file is compared by its time alone: the answer is current exactly when the time differs or the bytes do not. */
  lemma CurrentExact(c: Cache, disk: Disk, directory: string, path: string, file: File, a: Ask)
    requires Resolve(disk, directory, a.route) == Some((path, file)) && !a.head
    requires path in c.entries && !FillFails(a.fill, |file.bytes|) && a.sends >= |Chunks(c.entries[path].bytes)|
    ensures Carries(Respond(c, disk, directory, a).1, file.bytes)
      <==> file.modified != c.entries[path].modified || file.bytes == c.entries[path].bytes
  {
    hide Copied, Chunks, Join, Resolve;
    var e := c.entries[path];
    ChunksWhole(e.bytes);
    FillWhole(file.bytes, a.fill, a.memory);
    ServedCarries(e, path, a.sends);
    ServedCarries(Entry(file.bytes, file.modified), path, a.sends);
  }

  /** Two requests in a row on unchanged files: the second reply. */
  function Second(c: Cache, disk: Disk, directory: string, a: Ask, memory: nat -> char, again: Ask): Reply {
    Respond(Respond(c, disk, directory, a.(memory := memory)).0, disk, directory, again).1
  }

  /** A fill that failed leaves its entry behind, and the next request is answered from it. */
  lemma FailedFillStays(c: Cache, disk: Disk, directory: string, path: string, file: File, a: Ask, memory: nat -> char, again: Ask)
    requires Resolve(disk, directory, a.route) == Some((path, file)) && !a.head && a.locks
    requires path !in c.entries && c.remaining > |file.bytes| && FillFails(a.fill, |file.bytes|)
    requires again.route == a.route && !again.head && again.sends >= |Chunks(file.bytes)|
    ensures Respond(c, disk, directory, a.(memory := memory)).1 == Failed
    ensures Carries(Second(c, disk, directory, a, memory, again), file.bytes) <==> Copied(file.bytes, a.fill, memory) == file.bytes
  {
    hide Copied, Chunks, Join, Resolve;
    var bytes := Copied(file.bytes, a.fill, memory);
    var e := Entry(bytes, file.modified);
    ChunksWhole(bytes);
    ChunksWhole(file.bytes);
    assert Second(c, disk, directory, a, memory, again) == Served(e, path, again.sends);
    ServedCarries(e, path, again.sends);
  }

  /** The reads before the failure brought the whole file. */
  predicate CopiedAll(fill: Fill, size: nat) {
    size == 0 || (fill.opens && size <= fill.goodReads * BUFFER_LIMIT)
  }

  lemma CopiedExact(bytes: string, fill: Fill)
    ensures (forall memory: nat -> char :: Copied(bytes, fill, memory) == bytes) <==> CopiedAll(fill, |bytes|)
  {
    var n := if fill.opens then fill.goodReads * BUFFER_LIMIT else 0;
    if CopiedAll(fill, |bytes|) {
      forall memory: nat -> char
        ensures Copied(bytes, fill, memory) == bytes
      {}
    } else {
      var other := if bytes[n] == 'a' then 'b' else 'a';
      var memory: nat -> char := _ => other;
      assert Copied(bytes, fill, memory)[n] == other;
    }
  }

  /**
   After a failed fill the next answer is sure to be current, whatever fresh memory holds,
   exactly when the file is empty or the reads that did succeed had covered it all, so that
   only the read for its end or the closing failed.
   */
  lemma FailedFillServed(c: Cache, disk: Disk, directory: string, path: string, file: File, a: Ask, again: Ask)
    requires Resolve(disk, directory, a.route) == Some((path, file)) && !a.head && a.locks
    requires path !in c.entries && c.remaining > |file.bytes| && FillFails(a.fill, |file.bytes|)
    requires again.route == a.route && !again.head && again.sends >= |Chunks(file.bytes)|
    ensures (forall memory :: Carries(Second(c, disk, directory, a, memory, again), file.bytes)) <==> CopiedAll(a.fill, |file.bytes|)
  {
    hide Second, Carries, Copied, Resolve, CopiedAll, Chunks;
    forall memory: nat -> char
      ensures Carries(Second(c, disk, directory, a, memory, again), file.bytes) <==> Copied(file.bytes, a.fill, memory) == file.bytes
    {
      FailedFillStays(c, disk, directory, path, file, a, memory, again);
    }
    CopiedExact(file.bytes, a.fill);
  }

  // ----- The server object

  class CachedFile {
    const data: array<char>
    const modified: int

    constructor (data: array<char>, modified: int)
      ensures this.data == data && this.modified == modified
    {
      this.data := data;
      this.modified := modified;
    }
  }

  class HttpApi {
    const publicDirectory: string
    var fileCache: map<string, CachedFile>
    var fileCacheRemainingBytes: int
    ghost var charged: nat

    ghost function View(): Cache
      reads this, set p | p in fileCache :: fileCache[p].data
    {
      Cache(map p | p in fileCache :: Entry(fileCache[p].data[..], fileCache[p].modified), fileCacheRemainingBytes, charged)
    }

    constructor (publicDirectory: string, capacity: int)
      ensures this.publicDirectory == publicDirectory && View() == Cache(map[], capacity, 0)
    {
      this.publicDirectory := publicDirectory;
      fileCache := map[];
      fileCacheRemainingBytes := capacity;
      charged := 0;
    }

    /** The fill loop: reads into a buffer and copies it behind what was read before. */
    method FillData(file: File, fill: Fill, memory: nat -> char) returns (data: array<char>, failed: bool)
      ensures fresh(data) && data[..] == Copied(file.bytes, fill, memory)
      ensures failed <==> FillFails(fill, |file.bytes|)
    {
      var size := |file.bytes|;
      data := new char[size](i requires 0 <= i => memory(i));
      if !fill.opens {
        return data, true;
      }
      var offset, done, length := 0, 0, BUFFER_LIMIT;
      while length == BUFFER_LIMIT
        invariant length == BUFFER_LIMIT ==> offset == done * BUFFER_LIMIT <= size
        invariant length != BUFFER_LIMIT ==> offset == size && done == size / BUFFER_LIMIT + 1
        invariant done <= fill.goodReads
        invariant forall i :: 0 <= i < size ==> data[i] == if i < offset then file.bytes[i] else memory(i)
        decreases length == BUFFER_LIMIT, size - offset
      {
        if done == fill.goodReads {
          return data, true;
        }
        length := if size - offset < BUFFER_LIMIT then size - offset else BUFFER_LIMIT;
        var buffer := file.bytes[offset..offset + length];
        forall i | 0 <= i < length {
          data[offset + i] := buffer[i];
        }
        offset, done := offset + length, done + 1;
      }
      failed := !fill.closes;
    }

    /** What is sent for a cached file. */
    method Serve(cached: CachedFile, path: string, sends: nat) returns (reply: Reply)
      ensures reply == Served(Entry(cached.data[..], cached.modified), path, sends)
    {
      if cached.data.Length < BUFFER_LIMIT && EndsWith(path, ".html") {
        return Page(cached.data[..]);
      }
      var chunks, sent := SendChunks(cached.data, sends);
      reply := Data(cached.data.Length, chunks, sent);
    }

    /** If the modified time changed, the file is dropped from the cache. */
    method Check(path: string, file: File)
      modifies this`fileCache
      ensures View() == Checked(old(View()), path, file)
      ensures path in fileCache <==> path in View().entries
    {
      if path in fileCache && file.modified != fileCache[path].modified {
        fileCache := fileCache - {path};
      }
    }

    /** Puts the file in the cache, whether or not reading it works out. */
    method Store(path: string, file: File, a: Ask) returns (failed: bool)
      modifies this
      ensures View() == Stored(old(View()), path, Entry(Copied(file.bytes, a.fill, a.memory), file.modified))
      ensures path in fileCache && (failed <==> FillFails(a.fill, |file.bytes|))
    {
      var data, bad := FillData(file, a.fill, a.memory);
      failed := bad;
      var cached := new CachedFile(data, file.modified);
      assert View() == old(View());
      fileCache := fileCache[path := cached];
      fileCacheRemainingBytes := fileCacheRemainingBytes - data.Length;
      charged := charged + data.Length;
      assert View().entries == old(View()).entries[path := Entry(data[..], file.modified)];
    }

    method RespondHttp(disk: Disk, a: Ask) returns (reply: Reply)
      modifies this
      ensures (View(), reply) == Respond(old(View()), disk, publicDirectory, a)
    {
      hide Copied, Served, Clean, FillFails;
      var resolved := Resolve(disk, publicDirectory, a.route);
      if resolved == None {
        return NotFound;
      }
      var (path, file) := resolved.value;
      if a.head {
        return Head(|file.bytes|);
      }
      Check(path, file);
      if path !in fileCache && fileCacheRemainingBytes > |file.bytes| && a.locks {
        var failed := Store(path, file, a);
        if failed {
          return Failed;
        }
      }
      if path in fileCache {
        reply := Serve(fileCache[path], path, a.sends);
      } else {
        reply := Direct;
      }
    }
  }
}
