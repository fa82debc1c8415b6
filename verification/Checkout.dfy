/** Writing a tree to disk. */
module Checkout {
  import opened Graph
  import opened Objects
  import opened Text

  /** Path components from the filesystem root. */
  type Path = seq<string>

  datatype Node = Directory | File(data: Bytes, executable: bool) | Symlink(target: Bytes)

  type Nodes = map<Path, Node>

  datatype CheckoutError =
    | UnsafeEntry(name: string) | Submodule(name: string) | NotUtf8(name: string) | Missing(oid: Oid) | Decode(oid: Oid)
    | Io(path: Path)

  /** What is read from objects: the bytes of any object, and which bytes are UTF-8. */
  datatype Env = Env(raw: Object -> Bytes, utf8: Bytes -> bool)

  predicate SafeEntryName(name: string) {
    name != "" && name != "." && name != ".." && '/' !in name && '\\' !in name && '\0' !in name
  }

  // -- what a name means on disk ---------------------------------------------------------------

  /** The parts of a path text between slashes; one more than there are slashes. */
  function Parts(text: string): (parts: seq<string>)
    ensures forall p :: p in parts ==> '/' !in p
    decreases |text|
  {
    match SplitOnce(text, '/')
    case None => [text]
    case Some((a, b)) => [a] + Parts(b)
  }

  /** Where the parts lead from `at`: empty parts and `.` stay, `..` goes up. */
  function Walk(at: Path, parts: seq<string>): (path: Path)
    ensures forall p :: p in path ==> p in at || p in parts
    decreases |parts|
  {
    if parts == [] then at
    else if parts[0] == "" || parts[0] == "." then Walk(at, parts[1..])
    else if parts[0] == ".." then Walk(if at == [] then [] else at[..|at| - 1], parts[1..])
    else Walk(at + [parts[0]], parts[1..])
  }

  /** The path a text joined to `dest` names: from the root if it starts with a slash. */
  function Resolve(dest: Path, text: string): Path {
    Walk(if "/" <= text then [] else dest, Parts(text))
  }

  /** Wherever it is joined, the name is one new component of its own, and no system reads it otherwise. */
  ghost predicate StaysInside(name: string) {
    '\\' !in name && '\0' !in name && forall dest: Path :: Resolve(dest, name) == dest + [name]
  }

  /** The names accepted are exactly those that stay inside the directory they are joined to. */
  lemma SafeIffStaysInside(name: string)
    ensures SafeEntryName(name) <==> StaysInside(name)
  {
    hide SplitOnce;
    if SafeEntryName(name) {
      assert Parts(name) == [name];
      forall dest: Path
        ensures Resolve(dest, name) == dest + [name]
      {
        AbsoluteHasSlash(name);
        assert Walk(dest, [name]) == Walk(dest + [name], [name][1..]) == dest + [name];
      }
    }
    if StaysInside(name) {
      var root: Path := [];
      assert Resolve(root, name) == root + [name] == [name];
      assert name in Resolve(root, name);
      NoMove(root);
    }
  }

  lemma AbsoluteHasSlash(name: string)
    ensures "/" <= name ==> '/' in name
  {
    if "/" <= name {
      assert name[0] == '/';
    }
  }

  lemma NoMove(root: Path)
    requires root == []
    ensures Resolve(root, "") == [] && Resolve(root, ".") == [] && Resolve(root, "..") == []
  {
    assert Parts("") == [""] && Parts(".") == ["."] && Parts("..") == [".."];
  }

  lemma InsideAt(dest: Path, name: string)
    requires StaysInside(name)
    ensures Resolve(dest, name) == dest + [name]
  {
  }

  // -- the tree a checkout denotes ---------------------------------------------------------------

  function Find(entries: seq<Entry>, name: string): (r: Option<Entry>)
    ensures r.Some? ==> r.value in entries && r.value.name == name
    ensures r.None? ==> forall e :: e in entries ==> e.name != name
  {
    if entries == [] then None
    else if entries[0].name == name then Some(entries[0])
    else Find(entries[1..], name)
  }

  /** What stands at `path` below a tree, by the tree alone. */
  function At(env: Env, s: Store, tree: Oid, path: Path): Option<Node>
    decreases |path|, 2
  {
    if path == [] then Some(Directory)
    else if tree in s && s[tree].Tree? then AtEntries(env, s, s[tree].entries, path)
    else None
  }

  function AtEntries(env: Env, s: Store, entries: seq<Entry>, path: Path): Option<Node>
    requires path != []
    decreases |path|, 1
  {
    match Find(entries, path[0])
    case None => None
    case Some(e) => AtEntry(env, s, e, path[1..])
  }

  function AtEntry(env: Env, s: Store, e: Entry, rest: Path): Option<Node>
    decreases |rest|, 3
  {
    match e.kind
    case TreeEntry => At(env, s, e.oid, rest)
    case CommitEntry => None
    case LinkEntry => if rest == [] && e.oid in s then Some(Symlink(env.raw(s[e.oid]))) else None
    case _ => if rest == [] && e.oid in s then Some(File(env.raw(s[e.oid]), e.kind.ExecutableEntry?)) else None
  }

  predicate DistinctNames(entries: seq<Entry>) {
    forall i, j :: 0 <= i < j < |entries| ==> entries[i].name != entries[j].name
  }

  ghost predicate SafeEntries(entries: seq<Entry>) {
    DistinctNames(entries) && forall e :: e in entries ==> StaysInside(e.name)
  }

  /** A tree's id is a hash over its entries, so no tree is below itself. */
  ghost predicate WellFounded(s: Store, depth: Oid -> nat) {
    forall t, e :: t in s && s[t].Tree? && e in s[t].entries && e.kind.TreeEntry? ==> depth(e.oid) < depth(t)
  }

  /** Every tree below is readable, plainly named and free of submodules. */
  ghost predicate Clean(env: Env, s: Store, depth: Oid -> nat, tree: Oid)
    requires WellFounded(s, depth)
    decreases depth(tree)
  {
    && tree in s && s[tree].Tree? && SafeEntries(s[tree].entries)
    && (forall e :: e in s[tree].entries ==> env.utf8(e.name))
    && (forall e :: e in s[tree].entries ==>
         if e.kind.TreeEntry? then Clean(env, s, depth, e.oid)
         else !e.kind.CommitEntry? && e.oid in s && (e.kind.LinkEntry? ==> env.utf8(env.raw(s[e.oid]))))
  }

  ghost predicate CleanEntry(env: Env, s: Store, depth: Oid -> nat, e: Entry)
    requires WellFounded(s, depth)
  {
    if e.kind.TreeEntry? then Clean(env, s, depth, e.oid)
    else !e.kind.CommitEntry? && e.oid in s && (e.kind.LinkEntry? ==> env.utf8(env.raw(s[e.oid])))
  }

  lemma CleanIsEntries(env: Env, s: Store, depth: Oid -> nat, tree: Oid)
    requires WellFounded(s, depth)
    ensures Clean(env, s, depth, tree) <==>
              tree in s && s[tree].Tree? && SafeEntries(s[tree].entries)
              && forall e :: e in s[tree].entries ==> env.utf8(e.name) && CleanEntry(env, s, depth, e)
  {
  }

  // -- the disk ------------------------------------------------------------------------------------

  /** Every component of `path` is a real directory, none a link. */
  predicate RealDirs(nodes: Nodes, path: Path) {
    forall i :: 0 <= i <= |path| ==> path[..i] in nodes && nodes[path[..i]] == Directory
  }

  function Lookup(nodes: Nodes, path: Path): Option<Node> {
    if path in nodes then Some(nodes[path]) else None
  }

  predicate Below(dest: Path, path: Path) {
    dest < path
  }

  /** A disk. An operation given a directory and a name acts at the path the two resolve to. Operations are given
      meaning only where no link is followed on the way; that checkout calls them nowhere else is proved at every call.
      Any of them may fail, which the disk counts, and a failed write may leave anything at its path. */
  class Disk {
    var nodes: Nodes
    ghost var faults: nat

    constructor (nodes: Nodes)
      ensures this.nodes == nodes && faults == 0
    {
      this.nodes := nodes;
      faults := 0;
    }

    method MakeDir(dest: Path, name: string) returns (ok: bool)
      requires RealDirs(nodes, dest) && Resolve(dest, name) !in nodes
      modifies this
      ensures faults == if ok then old(faults) else old(faults) + 1
      ensures nodes == if ok then old(nodes)[Resolve(dest, name) := Directory] else old(nodes)
    {
      ok := *;
      faults := if ok then faults else faults + 1;
      if ok {
        nodes := nodes[Resolve(dest, name) := Directory];
      }
    }

    method WriteFile(dest: Path, name: string, data: Bytes) returns (ok: bool)
      requires RealDirs(nodes, dest) && Resolve(dest, name) !in nodes
      modifies this
      ensures faults == if ok then old(faults) else old(faults) + 1
      ensures ok ==> nodes == old(nodes)[Resolve(dest, name) := File(data, false)]
      ensures nodes - {Resolve(dest, name)} == old(nodes)
    {
      ok := *;
      faults := if ok then faults else faults + 1;
      var left := *;
      if ok {
        nodes := nodes[Resolve(dest, name) := File(data, false)];
      } else if left {
        var part := *;
        nodes := nodes[Resolve(dest, name) := File(part, false)];
      }
    }

    method SetExecutable(dest: Path, name: string) returns (ok: bool)
      requires RealDirs(nodes, dest) && Resolve(dest, name) in nodes && nodes[Resolve(dest, name)].File?
      modifies this
      ensures faults == if ok then old(faults) else old(faults) + 1
      ensures nodes == if ok then old(nodes)[Resolve(dest, name) := File(old(nodes)[Resolve(dest, name)].data, true)]
               else old(nodes)
    {
      ok := *;
      faults := if ok then faults else faults + 1;
      if ok {
        nodes := nodes[Resolve(dest, name) := File(nodes[Resolve(dest, name)].data, true)];
      }
    }

    method MakeLink(dest: Path, name: string, target: Bytes) returns (ok: bool)
      requires RealDirs(nodes, dest) && Resolve(dest, name) !in nodes
      modifies this
      ensures faults == if ok then old(faults) else old(faults) + 1
      ensures nodes == if ok then old(nodes)[Resolve(dest, name) := Symlink(target)] else old(nodes)
    {
      ok := *;
      faults := if ok then faults else faults + 1;
      if ok {
        nodes := nodes[Resolve(dest, name) := Symlink(target)];
      }
    }
  }

  // -- the loop's state --------------------------------------------------------------------------

  /** Below `dest` stands what the entries done so far denote, and nothing else; everywhere else, what was there. */
  ghost predicate Written(env: Env, s: Store, was: Nodes, now: Nodes, dest: Path, done: seq<Entry>) {
    forall p: Path ::
      Lookup(now, p) == if Below(dest, p) then AtEntries(env, s, done, p[|dest|..]) else Lookup(was, p)
  }

  /** Below `dest` stands exactly what the tree denotes; everywhere else, what was there. */
  ghost predicate CheckedOut(env: Env, s: Store, was: Nodes, now: Nodes, dest: Path, tree: Oid) {
    forall p: Path ::
      Lookup(now, p) == if Below(dest, p) then At(env, s, tree, p[|dest|..]) else Lookup(was, p)
  }

  /** Nothing outside `dest` changed. */
  ghost predicate Confined(was: Nodes, now: Nodes, dest: Path) {
    forall p: Path :: !Below(dest, p) ==> Lookup(now, p) == Lookup(was, p)
  }

  ghost predicate EmptyBelow(nodes: Nodes, dest: Path) {
    forall p: Path :: Below(dest, p) ==> p !in nodes
  }

  lemma {:induction false} FindAppended(entries: seq<Entry>, e: Entry, name: string)
    ensures Find(entries + [e], name) ==
            if Find(entries, name).Some? then Find(entries, name) else if e.name == name then Some(e) else None
  {
    if entries != [] {
      assert (entries + [e])[1..] == entries[1..] + [e];
      FindAppended(entries[1..], e, name);
    } else {
      assert entries + [e] == [e] && [e][1..] == [];
    }
  }

  /** Among distinct names, the order of entries does not matter. */
  lemma FindInAnyOrder(a: seq<Entry>, b: seq<Entry>, name: string)
    requires DistinctNames(a) && forall e :: e in a <==> e in b
    ensures Find(a, name) == Find(b, name)
  {
    var x, y := Find(a, name), Find(b, name);
    if x.Some? && y.Some? {
      var i :| 0 <= i < |a| && a[i] == x.value;
      var j :| 0 <= j < |a| && a[j] == y.value;
    }
  }

  lemma ConfinedKeepsDirs(was: Nodes, now: Nodes, dest: Path, path: Path)
    requires Confined(was, now, dest) && RealDirs(was, path) && path <= dest
    ensures RealDirs(now, path)
  {
    forall i | 0 <= i <= |path|
      ensures path[..i] in now && now[path[..i]] == Directory
    {
      assert !Below(dest, path[..i]);
      assert Lookup(now, path[..i]) == Lookup(was, path[..i]);
    }
  }

  lemma WrittenIsConfined(env: Env, s: Store, was: Nodes, now: Nodes, dest: Path, done: seq<Entry>)
    requires Written(env, s, was, now, dest, done)
    ensures Confined(was, now, dest)
  {
  }

  /** The next entry's own path is free, and so is everything below it. */
  lemma NextIsFree(env: Env, s: Store, was: Nodes, now: Nodes, dest: Path, done: seq<Entry>, name: string)
    requires Written(env, s, was, now, dest, done) && forall e :: e in done ==> e.name != name
    ensures dest + [name] !in now && EmptyBelow(now, dest + [name])
  {
    forall p: Path | dest + [name] <= p
      ensures p !in now
    {
      assert Below(dest, p) && p[|dest|..][0] == name;
      assert Lookup(now, p) == AtEntries(env, s, done, p[|dest|..]);
    }
  }

  /** One entry more: its own subtree filled in, the rest as it was. */
  lemma EntryWritten(env: Env, s: Store, was: Nodes, mid: Nodes, now: Nodes, dest: Path, done: seq<Entry>, e: Entry)
    requires Written(env, s, was, mid, dest, done) && forall d :: d in done ==> d.name != e.name
    requires forall p: Path :: Lookup(now, p) ==
               if dest + [e.name] <= p then AtEntry(env, s, e, p[|dest| + 1..]) else Lookup(mid, p)
    ensures Written(env, s, was, now, dest, done + [e])
  {
    hide AtEntry;
    forall p: Path
      ensures Lookup(now, p) == if Below(dest, p) then AtEntries(env, s, done + [e], p[|dest|..]) else Lookup(was, p)
    {
      assert Lookup(mid, p) == if Below(dest, p) then AtEntries(env, s, done, p[|dest|..]) else Lookup(was, p);
      if Below(dest, p) {
        FindAppended(done, e, p[|dest|]);
        assert p[|dest|..][1..] == p[|dest| + 1..];
        if p[|dest|] == e.name {
          assert p[..|dest| + 1] == dest + [e.name];
        } else {
          assert !(dest + [e.name] <= p);
        }
      } else {
        assert !(dest + [e.name] <= p);
      }
    }
  }

  /** A leaf written at its own path is all its entry denotes. */
  lemma LeafWritten(env: Env, s: Store, mid: Nodes, now: Nodes, dest: Path, e: Entry, node: Node)
    requires !e.kind.TreeEntry? && AtEntry(env, s, e, []) == Some(node) && now == mid[dest + [e.name] := node]
    requires EmptyBelow(mid, dest + [e.name])
    ensures forall p: Path :: Lookup(now, p) ==
              if dest + [e.name] <= p then AtEntry(env, s, e, p[|dest| + 1..]) else Lookup(mid, p)
  {
    forall p: Path
      ensures Lookup(now, p) == if dest + [e.name] <= p then AtEntry(env, s, e, p[|dest| + 1..]) else Lookup(mid, p)
    {
      if dest + [e.name] <= p && p != dest + [e.name] {
        assert Below(dest + [e.name], p);
      }
    }
  }

  /** A subtree checked out below its new directory is all its entry denotes. */
  lemma SubtreeWritten(env: Env, s: Store, mid: Nodes, now: Nodes, dest: Path, e: Entry)
    requires e.kind.TreeEntry?
    requires CheckedOut(env, s, mid[dest + [e.name] := Directory], now, dest + [e.name], e.oid)
    ensures forall p: Path :: Lookup(now, p) ==
              if dest + [e.name] <= p then AtEntry(env, s, e, p[|dest| + 1..]) else Lookup(mid, p)
  {
    var sub := dest + [e.name];
    forall p: Path
      ensures Lookup(now, p) == if sub <= p then AtEntry(env, s, e, p[|dest| + 1..]) else Lookup(mid, p)
    {
      assert Lookup(now, p) ==
        if Below(sub, p) then At(env, s, e.oid, p[|sub|..]) else Lookup(mid[sub := Directory], p);
      if p == sub {
        assert p[|dest| + 1..] == [];
      } else if sub <= p {
        assert Below(sub, p) && p[|sub|..] == p[|dest| + 1..];
      }
    }
  }

  /** What all of a tree's entries denote is what the tree denotes. */
  lemma AllWritten(env: Env, s: Store, was: Nodes, now: Nodes, dest: Path, tree: Oid)
    requires tree in s && s[tree].Tree? && Written(env, s, was, now, dest, s[tree].entries)
    ensures CheckedOut(env, s, was, now, dest, tree)
  {
    hide AtEntries;
    forall p: Path
      ensures Lookup(now, p) == if Below(dest, p) then At(env, s, tree, p[|dest|..]) else Lookup(was, p)
    {
      assert Lookup(now, p) ==
        if Below(dest, p) then AtEntries(env, s, s[tree].entries, p[|dest|..]) else Lookup(was, p);
      if Below(dest, p) {
        assert p[|dest|..] != [];
      }
    }
  }

  lemma WrittenInAnyOrder(env: Env, s: Store, was: Nodes, now: Nodes, dest: Path, a: seq<Entry>, b: seq<Entry>)
    requires DistinctNames(a) && (forall e :: e in a <==> e in b) && Written(env, s, was, now, dest, b)
    ensures Written(env, s, was, now, dest, a)
  {
    forall p: Path | Below(dest, p)
      ensures AtEntries(env, s, a, p[|dest|..]) == AtEntries(env, s, b, p[|dest|..])
    {
      FindInAnyOrder(a, b, p[|dest|]);
    }
  }

  lemma NothingWritten(env: Env, s: Store, nodes: Nodes, dest: Path)
    requires EmptyBelow(nodes, dest)
    ensures Written(env, s, nodes, nodes, dest, [])
  {
  }

  lemma ConfinedTrans(a: Nodes, b: Nodes, c: Nodes, dest: Path, sub: Path)
    requires Confined(a, b, dest) && Confined(b, c, sub) && dest <= sub
    ensures Confined(a, c, dest)
  {
    forall p: Path | !Below(dest, p)
      ensures Lookup(c, p) == Lookup(a, p)
    {
      assert !Below(sub, p);
      assert Lookup(b, p) == Lookup(a, p);
    }
  }

  lemma ConfinedAt(mid: Nodes, now: Nodes, dest: Path, name: string)
    requires now - {dest + [name]} == mid - {dest + [name]}
    ensures Confined(mid, now, dest)
  {
    forall p: Path | !Below(dest, p)
      ensures Lookup(now, p) == Lookup(mid, p)
    {
      assert p != dest + [name];
      assert p in now <==> p in now - {dest + [name]};
      assert p in mid <==> p in mid - {dest + [name]};
    }
  }

  // -- checkout ------------------------------------------------------------------------------------

  /** Non-links first, then links. */
  method Partition(entries: seq<Entry>) returns (todo: seq<Entry>)
    requires DistinctNames(entries)
    ensures DistinctNames(todo) && forall e :: e in todo <==> e in entries
    ensures forall i, j :: 0 <= i < j < |todo| && todo[i].kind.LinkEntry? ==> todo[j].kind.LinkEntry?
  {
    var links, others: seq<Entry> := [], [];
    for i := 0 to |entries|
      invariant forall e :: e in links <==> e in entries[..i] && e.kind.LinkEntry?
      invariant forall e :: e in others <==> e in entries[..i] && !e.kind.LinkEntry?
      invariant DistinctNames(links) && DistinctNames(others)
    {
      var e := entries[i];
      assert entries[..i + 1] == entries[..i] + [e];
      if e.kind.LinkEntry? {
        links := links + [e];
      } else {
        others := others + [e];
      }
    }
    assert entries[..|entries|] == entries;
    todo := others + links;
    forall i, j | 0 <= i < j < |todo|
      ensures todo[i].name != todo[j].name
    {
      if i < |others| <= j {
        assert todo[i] in others && todo[j] in links;
      }
    }
  }

  /** A name among the entries that cannot be written: no UTF-8, unsafe, or the second of two. */
  ghost predicate BlamesName(env: Env, entries: seq<Entry>, e: CheckoutError) {
    match e
    case NotUtf8(name) => !env.utf8(name) && exists x :: x in entries && x.name == name
    case UnsafeEntry(name) =>
      exists i :: 0 <= i < |entries| && entries[i].name == name
                  && (!StaysInside(name) || exists j :: 0 <= j < i && entries[j].name == name)
    case _ => false
  }

  /** An entry that cannot be written: a submodule, or a link to a target that is no text. */
  ghost predicate BlamesEntry(env: Env, s: Store, x: Entry, e: CheckoutError) {
    match e
    case Submodule(name) => x.kind.CommitEntry? && name == x.name
    case NotUtf8(name) => x.kind.LinkEntry? && name == x.name && x.oid in s && !env.utf8(env.raw(s[x.oid]))
    case _ => false
  }

  /** An error names what is wrong: a missing object, one that is no tree, or an entry of some tree. */
  ghost predicate Blames(env: Env, s: Store, e: CheckoutError) {
    match e
    case Io(_) => true
    case Missing(o) => o !in s
    case Decode(o) => o in s && !s[o].Tree?
    case _ =>
      exists t :: t in s && s[t].Tree? &&
        (BlamesName(env, s[t].entries, e) || exists x :: x in s[t].entries && BlamesEntry(env, s, x, e))
  }

  /** The first entry refused, if any: names must be UTF-8, plain and unrepeated. */
  method CheckNames(env: Env, entries: seq<Entry>) returns (r: Option<CheckoutError>)
    ensures r.None? <==> SafeEntries(entries) && forall e :: e in entries ==> env.utf8(e.name)
    ensures r.Some? ==> !r.value.Io?
    ensures r.Some? && (forall e :: e in entries ==> env.utf8(e.name)) ==> r.value.UnsafeEntry?
    ensures r.Some? ==> BlamesName(env, entries, r.value)
  {
    for i := 0 to |entries|
      invariant forall k :: 0 <= k < i ==> env.utf8(entries[k].name)
    {
      if !env.utf8(entries[i].name) {
        assert entries[i] in entries;
        return Some(NotUtf8(entries[i].name));
      }
    }
    var seen: set<string> := {};
    for i := 0 to |entries|
      invariant forall n :: n in seen <==> exists k :: 0 <= k < i && entries[k].name == n
      invariant DistinctNames(entries[..i]) && forall k :: 0 <= k < i ==> StaysInside(entries[k].name)
    {
      SafeIffStaysInside(entries[i].name);
      if !SafeEntryName(entries[i].name) {
        return Some(UnsafeEntry(entries[i].name));
      }
      if entries[i].name in seen {
        return Some(UnsafeEntry(entries[i].name));
      }
      seen := seen + {entries[i].name};
    }
    assert entries[..|entries|] == entries;
    return None;
  }

  /** Check out `tree` into the empty directory `dest`. Where it succeeds, below `dest` stands exactly what the tree
      denotes; wherever it stops, nothing outside `dest` changed; and it succeeds on a clean tree unless the disk
      fails. */
  method Checkout(env: Env, s: Store, tree: Oid, disk: Disk, dest: Path, ghost depth: Oid -> nat)
    returns (r: Option<CheckoutError>)
    requires WellFounded(s, depth) && RealDirs(disk.nodes, dest) && EmptyBelow(disk.nodes, dest)
    modifies disk
    ensures Confined(old(disk.nodes), disk.nodes, dest)
    ensures r.None? ==> CheckedOut(env, s, old(disk.nodes), disk.nodes, dest, tree)
    ensures r.None? ==> Clean(env, s, depth, tree)
    ensures r.Some? && !r.value.Io? ==> !Clean(env, s, depth, tree)
    ensures disk.faults >= old(disk.faults) && (r.Some? && r.value.Io? <==> disk.faults > old(disk.faults))
    ensures tree !in s || !s[tree].Tree? || !SafeEntries(s[tree].entries) ==>
              r.Some? && !r.value.Io? && disk.nodes == old(disk.nodes)
    ensures r.Some? ==> Blames(env, s, r.value)
    decreases depth(tree)
  {
    hide Written, CheckedOut, Confined, EmptyBelow, Clean, CleanEntry, At, AtEntries, AtEntry, Find;
    ghost var was := disk.nodes;
    CleanIsEntries(env, s, depth, tree);
    WrittenIsConfinedAtStart(was, dest);
    if tree !in s {
      return Some(Missing(tree));
    }
    if !s[tree].Tree? {
      return Some(Decode(tree));
    }
    var entries := s[tree].entries;
    var refused := CheckNames(env, entries);
    if refused.Some? {
      return refused;
    }
    var todo := Partition(entries);
    NothingWritten(env, s, was, dest);
    for i := 0 to |todo|
      invariant Written(env, s, was, disk.nodes, dest, todo[..i])
      invariant forall k :: 0 <= k < i ==> CleanEntry(env, s, depth, todo[k])
      invariant disk.faults == old(disk.faults)
    {
      var e := todo[i];
      assert todo[..i + 1] == todo[..i] + [e] && e in entries;
      var failed := WriteEntry(env, s, e, disk, dest, was, todo[..i], tree, depth);
      if failed.Some? {
        return failed;
      }
    }
    assert todo[..|todo|] == todo;
    WrittenInAnyOrder(env, s, was, disk.nodes, dest, entries, todo);
    WrittenIsConfined(env, s, was, disk.nodes, dest, entries);
    AllWritten(env, s, was, disk.nodes, dest, tree);
    return None;
  }

  lemma WrittenIsConfinedAtStart(nodes: Nodes, dest: Path)
    ensures Confined(nodes, nodes, dest)
  {
  }

  /** Write one entry after those `done`. */
  method WriteEntry(
    env: Env, s: Store, e: Entry, disk: Disk, dest: Path, ghost was: Nodes, ghost done: seq<Entry>, ghost tree: Oid,
    ghost depth: Oid -> nat)
    returns (r: Option<CheckoutError>)
    requires WellFounded(s, depth) && RealDirs(was, dest) && tree in s && s[tree].Tree? && e in s[tree].entries
    requires Written(env, s, was, disk.nodes, dest, done) && forall d :: d in done ==> d.name != e.name
    requires StaysInside(e.name)
    modifies disk
    ensures Confined(was, disk.nodes, dest)
    ensures r.None? ==> Written(env, s, was, disk.nodes, dest, done + [e]) && CleanEntry(env, s, depth, e)
    ensures r.Some? && !r.value.Io? ==> !CleanEntry(env, s, depth, e)
    ensures r.Some? ==> Blames(env, s, r.value)
    ensures disk.faults >= old(disk.faults) && (r.Some? && r.value.Io? <==> disk.faults > old(disk.faults))
    decreases depth(tree), 0
  {
    hide Written, CheckedOut, Confined, EmptyBelow, Clean, At, AtEntries, Find, RealDirs, Resolve, StaysInside;
    ghost var mid, sub := disk.nodes, dest + [e.name];
    InsideAt(dest, e.name);
    WrittenIsConfined(env, s, was, mid, dest, done);
    ConfinedKeepsDirs(was, mid, dest, dest);
    NextIsFree(env, s, was, mid, dest, done, e.name);
    match e.kind {
      case TreeEntry =>
        var made := disk.MakeDir(dest, e.name);
        if !made {
          return Some(Io(dest + [e.name]));
        }
        ghost var made' := disk.nodes;
        FreshDirectory(mid, dest, e.name);
        r := Checkout(env, s, e.oid, disk, dest + [e.name], depth);
        ConfinedAt(mid, made', dest, e.name);
        ConfinedTrans(was, mid, made', dest, dest);
        ConfinedTrans(was, made', disk.nodes, dest, sub);
        if r.None? {
          SubtreeWritten(env, s, mid, disk.nodes, dest, e);
          EntryWritten(env, s, was, mid, disk.nodes, dest, done, e);
        }
      case CommitEntry =>
        assert BlamesEntry(env, s, e, Submodule(e.name));
        return Some(Submodule(e.name));
      case LinkEntry =>
        if e.oid !in s {
          return Some(Missing(e.oid));
        }
        if !env.utf8(env.raw(s[e.oid])) {
          assert BlamesEntry(env, s, e, NotUtf8(e.name));
          return Some(NotUtf8(e.name));
        }
        var linked := disk.MakeLink(dest, e.name, env.raw(s[e.oid]));
        ConfinedAt(mid, disk.nodes, dest, e.name);
        ConfinedTrans(was, mid, disk.nodes, dest, dest);
        if !linked {
          return Some(Io(dest + [e.name]));
        }
        LeafWritten(env, s, mid, disk.nodes, dest, e, Symlink(env.raw(s[e.oid])));
        EntryWritten(env, s, was, mid, disk.nodes, dest, done, e);
        return None;
      case _ =>
        if e.oid !in s {
          return Some(Missing(e.oid));
        }
        r := WriteBlob(env, s, e, disk, dest);
        ConfinedAt(mid, disk.nodes, dest, e.name);
        ConfinedTrans(was, mid, disk.nodes, dest, dest);
        if r.None? {
          LeafWritten(env, s, mid, disk.nodes, dest, e, File(env.raw(s[e.oid]), e.kind.ExecutableEntry?));
          EntryWritten(env, s, was, mid, disk.nodes, dest, done, e);
        }
    }
  }

  /** Write a blob entry's bytes, then its executable bit. */
  method WriteBlob(env: Env, s: Store, e: Entry, disk: Disk, dest: Path) returns (r: Option<CheckoutError>)
    requires e.oid in s && RealDirs(disk.nodes, dest) && dest + [e.name] !in disk.nodes && StaysInside(e.name)
    modifies disk
    ensures disk.nodes - {dest + [e.name]} == old(disk.nodes) - {dest + [e.name]}
    ensures r.None? ==>
              disk.nodes == old(disk.nodes)[dest + [e.name] := File(env.raw(s[e.oid]), e.kind.ExecutableEntry?)]
    ensures r.Some? ==> r.value.Io?
    ensures disk.faults >= old(disk.faults) && (r.Some? <==> disk.faults > old(disk.faults))
  {
    var path := dest + [e.name];
    InsideAt(dest, e.name);
    var wrote := disk.WriteFile(dest, e.name, env.raw(s[e.oid]));
    if !wrote {
      return Some(Io(path));
    }
    if e.kind.ExecutableEntry? {
      StillReal(old(disk.nodes), disk.nodes, dest, e.name);
      var marked := disk.SetExecutable(dest, e.name);
      if !marked {
        return Some(Io(path));
      }
    }
    return None;
  }

  lemma StillReal(was: Nodes, now: Nodes, dest: Path, name: string)
    requires RealDirs(was, dest) && now - {dest + [name]} == was - {dest + [name]}
    ensures RealDirs(now, dest)
  {
    ConfinedAt(was, now, dest, name);
    ConfinedKeepsDirs(was, now, dest, dest);
  }

  lemma FreshDirectory(nodes: Nodes, dest: Path, name: string)
    requires RealDirs(nodes, dest) && EmptyBelow(nodes, dest + [name])
    ensures RealDirs(nodes[dest + [name] := Directory], dest + [name])
    ensures EmptyBelow(nodes[dest + [name] := Directory], dest + [name])
  {
    var sub := dest + [name];
    forall i | 0 <= i <= |sub|
      ensures sub[..i] in nodes[sub := Directory] && nodes[sub := Directory][sub[..i]] == Directory
    {
      if i <= |dest| {
        assert sub[..i] == dest[..i];
      } else {
        assert sub[..i] == sub;
      }
    }
  }
}
