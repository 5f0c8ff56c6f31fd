/** The tree of files that is built from an archive: nodes refer to their children by their place
    in an arena, in the order in which they were pushed. */
module UstarTree {
  import opened Wrappers
  import opened Numerals
  import opened FsPath

  datatype Content = File(data: Text) | Directory

  datatype Node = Node(name: Text, content: Content, children: seq<nat>)

  type Path = seq<Text>

  const ROOT: nat := 0

  /** The root is a directory and children exist. */
  ghost predicate Sound(nodes: seq<Node>) {
    && nodes != [] && nodes[ROOT].content == Directory
    && forall x, k :: 0 <= x < |nodes| && 0 <= k < |nodes[x].children| ==> nodes[x].children[k] < |nodes|
  }

  /** The first child with the name. */
  function FirstNamed(nodes: seq<Node>, children: seq<nat>, name: Text): (r: Option<nat>)
    requires forall k :: 0 <= k < |children| ==> children[k] < |nodes|
    ensures r.Some? ==> r.value < |nodes|
  {
    if children == [] then None
    else if nodes[children[0]].name == name then Some(children[0])
    else FirstNamed(nodes, children[1..], name)
  }

  /** `lookup`: "/" names the root in every directory. */
  function Lookup(nodes: seq<Node>, x: nat, name: Text): (r: Option<nat>)
    requires Sound(nodes) && x < |nodes|
    ensures r.Some? ==> r.value < |nodes|
  {
    if nodes[x].content != Directory then None
    else if name == [SLASH] then Some(ROOT)
    else FirstNamed(nodes, nodes[x].children, name)
  }

  /** Looking up the parts of a path one after the other. */
  function Walk(nodes: seq<Node>, x: nat, q: Path): (r: Option<nat>)
    requires Sound(nodes) && x < |nodes|
    ensures r.Some? ==> r.value < |nodes|
    decreases |q|
  {
    if q == [] then Some(x)
    else
      match Lookup(nodes, x, q[0])
      case None => None
      case Some(c) => Walk(nodes, c, q[1..])
  }

  function FindDir(nodes: seq<Node>, x: nat, name: Text): (r: Option<nat>)
    requires Sound(nodes) && x < |nodes|
    ensures r.Some? ==> r.value < |nodes| && nodes[r.value].content == Directory
  {
    match Lookup(nodes, x, name)
    case None => None
    case Some(c) => if nodes[c].content == Directory then Some(c) else None
  }

  /** A new node, pushed into a directory. */
  function AddNode(nodes: seq<Node>, parent: nat, name: Text, content: Content): (r: seq<Node>)
    requires Sound(nodes) && parent < |nodes| && nodes[parent].content == Directory
    ensures Sound(r) && |r| == |nodes| + 1 && r[|nodes|] == Node(name, content, [])
    ensures forall x :: 0 <= x < |nodes| ==> r[x].name == nodes[x].name && r[x].content == nodes[x].content
    ensures forall x ::
      0 <= x < |nodes| ==> r[x].children == nodes[x].children + (if x == parent then [|nodes|] else [])
  {
    var p := nodes[parent];
    nodes[parent := Node(p.name, p.content, p.children + [|nodes|])] + [Node(name, content, [])]
  }

  /** The directories of a path, made where they are missing. */
  function MakeDirs(nodes: seq<Node>, x: nat, dirs: Path): (r: (seq<Node>, nat))
    requires Sound(nodes) && x < |nodes| && nodes[x].content == Directory
    ensures Sound(r.0) && r.1 < |r.0| && r.0[r.1].content == Directory
    decreases |dirs|
  {
    if dirs == [] then (nodes, x)
    else
      match FindDir(nodes, x, dirs[0])
      case Some(c) => MakeDirs(nodes, c, dirs[1..])
      case None => MakeDirs(AddNode(nodes, x, dirs[0], Directory), |nodes|, dirs[1..])
  }

  /** What an archive says about one path. */
  datatype Entry = Entry(parts: Path, content: Content)

  function Insert(nodes: seq<Node>, e: Entry): (r: seq<Node>)
    requires Sound(nodes)
    ensures Sound(r)
  {
    if e.parts == [] then nodes
    else
      var made := MakeDirs(nodes, ROOT, e.parts[..|e.parts| - 1]);
      AddNode(made.0, made.1, e.parts[|e.parts| - 1], e.content)
  }

  function InsertAll(nodes: seq<Node>, es: seq<Entry>): (r: seq<Node>)
    requires Sound(nodes)
    ensures Sound(r)
    decreases |es|
  {
    if es == [] then nodes else InsertAll(Insert(nodes, es[0]), es[1..])
  }

  const EMPTY: seq<Node> := [Node([SLASH], Directory, [])]

  /** A slash as a part of a path goes back to the root, from any directory, and leads nowhere from a
      file. */
  lemma {:induction false} SlashIsRoot(nodes: seq<Node>, x: nat, q: Path, r: Path)
    requires Sound(nodes) && x < |nodes| && Walk(nodes, x, q).Some?
    ensures Walk(nodes, x, q + [['/' as int]] + r) ==
      if nodes[Walk(nodes, x, q).value].content == Directory then Walk(nodes, ROOT, r) else None
    decreases |q|
  {
    hide Sound;
    var all := q + [['/' as int]] + r;
    if q == [] {
      assert all[0] == [SLASH] && all[1..] == r;
    } else {
      var c := Lookup(nodes, x, q[0]).value;
      assert all[0] == q[0] && all[1..] == q[1..] + [['/' as int]] + r;
      SlashIsRoot(nodes, c, q[1..], r);
    }
  }

  // ---------- The tree as a map from paths ----------

  predicate Plain(q: Path) { [SLASH] !in q }

  /** Every path of the map leads to its own node, which has its content; no other path leads
      anywhere. */
  ghost predicate Shows(nodes: seq<Node>, a: map<Path, Content>) {
    && Sound(nodes)
    && (forall q :: Plain(q) ==> (q in a <==> Walk(nodes, ROOT, q).Some?))
    && (forall q :: Plain(q) && q in a ==> nodes[Walk(nodes, ROOT, q).value].content == a[q])
    && (forall p, q ::
        Plain(p) && Plain(q) && p in a && q in a && Walk(nodes, ROOT, p) == Walk(nodes, ROOT, q) ==> p == q)
  }

  lemma {:induction false} FirstNamedAfter(nodes: seq<Node>, nodes': seq<Node>, children: seq<nat>, name: Text)
    requires |nodes| <= |nodes'| && forall x :: 0 <= x < |nodes| ==> nodes'[x].name == nodes[x].name
    requires forall k :: 0 <= k < |children| ==> children[k] < |nodes|
    ensures FirstNamed(nodes', children, name) == FirstNamed(nodes, children, name)
  {
    if children != [] { FirstNamedAfter(nodes, nodes', children[1..], name); }
  }

  lemma {:induction false} FirstNamedPush(nodes: seq<Node>, children: seq<nat>, last: nat, name: Text)
    requires (forall k :: 0 <= k < |children| ==> children[k] < |nodes|) && last < |nodes|
    ensures FirstNamed(nodes, children + [last], name)
      == if FirstNamed(nodes, children, name).Some? then FirstNamed(nodes, children, name)
         else if nodes[last].name == name then Some(last) else None
  {
    if children != [] {
      assert (children + [last])[1..] == children[1..] + [last];
      FirstNamedPush(nodes, children[1..], last, name);
    }
  }

  /** A lookup after a push finds what it found before, and otherwise the new node under its name. */
  lemma {:induction false} LookupAfter(nodes: seq<Node>, parent: nat, n: Text, content: Content, x: nat, name: Text)
    requires Sound(nodes) && parent < |nodes| && nodes[parent].content == Directory && x < |nodes| && n != [SLASH]
    ensures Lookup(AddNode(nodes, parent, n, content), x, name)
      == if Lookup(nodes, x, name).None? && x == parent && name == n then Some(|nodes|) else Lookup(nodes, x, name)
  {
    var r := AddNode(nodes, parent, n, content);
    FirstNamedAfter(nodes, r, nodes[x].children, name);
    if x == parent {
      FirstNamedPush(r, nodes[x].children, |nodes|, name);
    } else {
      assert r[x].children == nodes[x].children;
    }
  }

  /** The same for walks. */
  lemma {:induction false} WalkAfter(nodes: seq<Node>, parent: nat, n: Text, content: Content, x: nat, q: Path)
    requires Sound(nodes) && parent < |nodes| && nodes[parent].content == Directory
      && x < |nodes| && n != [SLASH] && Plain(q)
    ensures Walk(AddNode(nodes, parent, n, content), x, q)
      == if Walk(nodes, x, q).None? && q[|q| - 1] == n
        && Walk(nodes, x, q[..|q| - 1]) == Some(parent) then Some(|nodes|)
         else Walk(nodes, x, q)
    decreases |q|
  {
    hide Lookup, AddNode;
    if q != [] {
      var r := AddNode(nodes, parent, n, content);
      LookupAfter(nodes, parent, n, content, x, q[0]);
      var rest := q[1..];
      if Lookup(nodes, x, q[0]).Some? {
        WalkAfter(nodes, parent, n, content, Lookup(nodes, x, q[0]).value, rest);
        if rest != [] { assert q[..|q| - 1][1..] == rest[..|rest| - 1]; }
      } else if x == parent && q[0] == n {
        NewIsLeaf(nodes, parent, n, content, rest);
        if rest != [] { assert q[..|q| - 1][0] == q[0]; }
      } else if rest != [] {
        assert q[..|q| - 1][0] == q[0];
      }
    }
  }

  lemma {:induction false} NewIsLeaf(nodes: seq<Node>, parent: nat, n: Text, content: Content, q: Path)
    requires Sound(nodes) && parent < |nodes| && nodes[parent].content == Directory && Plain(q)
    ensures Walk(AddNode(nodes, parent, n, content), |nodes|, q) == if q == [] then Some(|nodes|) else None
  {
    if q != [] { assert q[0] in q; }
  }

  lemma {:induction false} WalkAppend(nodes: seq<Node>, x: nat, p: Path, n: Text)
    requires Sound(nodes) && x < |nodes|
    ensures Walk(nodes, x, p + [n]) == match Walk(nodes, x, p) case None => None case Some(y) => Lookup(nodes, y, n)
    decreases |p|
  {
    hide Lookup;
    if p == [] {
      assert [] + [n] == [n] && [n][1..] == [];
    } else {
      assert (p + [n])[1..] == p[1..] + [n];
      match Lookup(nodes, x, p[0])
      case None =>
      case Some(c) => WalkAppend(nodes, c, p[1..], n);
    }
  }

  /** After a push one path may lead to the new node; all others lead where they did. */
  lemma {:induction false} AddWalk(nodes: seq<Node>, a: map<Path, Content>,
    p: Path, parent: nat, n: Text, content: Content, q: Path)
    requires Shows(nodes, a) && Plain(p + [n])
      && Walk(nodes, ROOT, p) == Some(parent) && nodes[parent].content == Directory
    requires Plain(q)
    ensures Walk(AddNode(nodes, parent, n, content), ROOT, q)
      == if q == p + [n] && q !in a then Some(|nodes|) else Walk(nodes, ROOT, q)
  {
    hide Lookup, AddNode, Walk, Shows, Plain;
    PlainParts(p, n);
    SoundRoot(nodes, a);
    WalkAfter(nodes, parent, n, content, ROOT, q);
    WalkNowhere(nodes);
    Reached(nodes, a, q);
    if q != [] {
      var front, last := q[..|q| - 1], q[|q| - 1];
      assert q == front + [last];
      PlainParts(front, last);
      if Walk(nodes, ROOT, front) == Some(parent) {
        OnlyPath(nodes, a, front, p);
      } else {
        assert q == p + [n] ==> front == p;
      }
    }
  }

  lemma {:induction false} PlainParts(p: Path, n: Text)
    requires Plain(p + [n])
    ensures Plain(p) && n != [SLASH]
  {
    assert n in p + [n] && forall m :: m in p ==> m in p + [n];
  }

  lemma {:induction false} OnlyPath(nodes: seq<Node>, a: map<Path, Content>, p: Path, q: Path)
    requires Shows(nodes, a) && Plain(p) && Plain(q) && Walk(nodes, ROOT, p).Some?
      && Walk(nodes, ROOT, p) == Walk(nodes, ROOT, q)
    ensures p == q
  {}

  /** A push under a new name adds one path; a push under a name that is taken adds none. */
  lemma {:induction false} AddShows(nodes: seq<Node>,
    a: map<Path, Content>, p: Path, parent: nat, n: Text, content: Content)
    requires Shows(nodes, a) && Plain(p + [n])
      && Walk(nodes, ROOT, p) == Some(parent) && nodes[parent].content == Directory
    ensures Shows(AddNode(nodes, parent, n, content), if p + [n] in a then a else a[p + [n] := content])
    ensures p + [n] !in a ==> Walk(AddNode(nodes, parent, n, content), ROOT, p + [n]) == Some(|nodes|)
  {
    hide Lookup, AddNode, Walk, Plain, Sound;
    var r, t := AddNode(nodes, parent, n, content), p + [n];
    forall q | Plain(q) ensures Walk(r, ROOT, q) == if q == t && q !in a then Some(|nodes|) else Walk(nodes, ROOT, q) {
      AddWalk(nodes, a, p, parent, n, content, q);
    }
  }

  lemma {:induction false} WalkNowhere(nodes: seq<Node>)
    requires Sound(nodes)
    ensures Walk(nodes, ROOT, []) == Some(ROOT)
  {}

  /** The directories of a path, in the map. */
  function WithDirs(a: map<Path, Content>, p: Path, dirs: Path): map<Path, Content>
    decreases |dirs|
  {
    if dirs == [] then a
    else
      var q := p + [dirs[0]];
      WithDirs(if q in a then a else a[q := Directory], q, dirs[1..])
  }

  /** No file is in the way of the directories. */
  ghost predicate Free(a: map<Path, Content>, p: Path, dirs: Path) {
    forall k :: 1 <= k <= |dirs| && p + dirs[..k] in a ==> a[p + dirs[..k]] == Directory
  }

  lemma {:induction false} FreeStep(a: map<Path, Content>, p: Path, dirs: Path)
    requires dirs != [] && Free(a, p, dirs)
    ensures var q := p + [dirs[0]];
      ((q in a ==> a[q] == Directory) && Free(if q in a then a else a[q := Directory], q, dirs[1..]))
  {
    var q := p + [dirs[0]];
    assert dirs[..1] == [dirs[0]];
    forall k | 1 <= k <= |dirs| - 1 ensures q + dirs[1..][..k] == p + dirs[..k + 1] {
      assert dirs[..k + 1] == [dirs[0]] + dirs[1..][..k];
    }
  }

  lemma {:induction false} MakeDirsShows(nodes: seq<Node>, a: map<Path, Content>, p: Path, x: nat, dirs: Path)
    requires Shows(nodes, a) && Plain(p + dirs) && Walk(nodes, ROOT, p) == Some(x)
      && nodes[x].content == Directory && Free(a, p, dirs)
    ensures var made := MakeDirs(nodes, x, dirs);
      (Shows(made.0, WithDirs(a, p, dirs)) && Walk(made.0, ROOT, p + dirs) == Some(made.1))
    decreases |dirs|
  {
    hide Lookup, AddNode, Walk, Shows, Free;
    SoundRoot(nodes, a);
    if dirs == [] {
      assert p + dirs == p;
    } else {
      var q, rest := p + [dirs[0]], dirs[1..];
      assert p + dirs == q + rest;
      assert Plain(q) by { assert forall m :: m in q ==> m in p + dirs; }
      FreeStep(a, p, dirs);
      WalkAppend(nodes, ROOT, p, dirs[0]);
      Reached(nodes, a, q);
      if q in a {
        MakeDirsShows(nodes, a, q, Walk(nodes, ROOT, q).value, rest);
      } else {
        AddShows(nodes, a, p, x, dirs[0], Directory);
        MakeDirsShows(AddNode(nodes, x, dirs[0], Directory), a[q := Directory], q, |nodes|, rest);
      }
    }
  }

  lemma {:induction false} Reached(nodes: seq<Node>, a: map<Path, Content>, q: Path)
    requires Shows(nodes, a) && Plain(q)
    ensures q in a <==> Walk(nodes, ROOT, q).Some?
    ensures q in a ==> nodes[Walk(nodes, ROOT, q).value].content == a[q]
  {}

  /** What an entry adds to the map: its directories, then itself unless its path is taken. */
  function Insertion(a: map<Path, Content>, e: Entry): map<Path, Content> {
    if e.parts == [] then a
    else
      var b := WithDirs(a, [], e.parts[..|e.parts| - 1]);
      if e.parts in b then b else b[e.parts := e.content]
  }

  lemma {:induction false} InsertShows(nodes: seq<Node>, a: map<Path, Content>, e: Entry)
    requires Shows(nodes, a) && Plain(e.parts) && (e.parts != [] ==> Free(a, [], e.parts[..|e.parts| - 1]))
    ensures Shows(Insert(nodes, e), Insertion(a, e))
  {
    hide Lookup, AddNode, Walk, Shows, Free, MakeDirs, WithDirs;
    if e.parts != [] {
      var dirs, n := e.parts[..|e.parts| - 1], e.parts[|e.parts| - 1];
      assert [] + dirs == dirs && dirs + [n] == e.parts;
      assert Plain([] + dirs) by { assert forall m :: m in dirs ==> m in e.parts; }
      SoundRoot(nodes, a);
      WalkNowhere(nodes);
      MakeDirsShows(nodes, a, [], ROOT, dirs);
      var made := MakeDirs(nodes, ROOT, dirs);
      AddShows(made.0, WithDirs(a, [], dirs), dirs, made.1, n, e.content);
    }
  }

  lemma {:induction false} SoundRoot(nodes: seq<Node>, a: map<Path, Content>)
    requires Shows(nodes, a)
    ensures Sound(nodes)
  {}

  // ---------- Which paths there are ----------

  lemma {:induction false} WithDirsHas(a: map<Path, Content>, p: Path, dirs: Path, q: Path)
    ensures q in WithDirs(a, p, dirs) <==> q in a || exists k :: 1 <= k <= |dirs| && q == p + dirs[..k]
    ensures q in a ==> WithDirs(a, p, dirs)[q] == a[q]
    ensures q !in a && q in WithDirs(a, p, dirs) ==> WithDirs(a, p, dirs)[q] == Directory
    decreases |dirs|
  {
    if dirs != [] {
      var r, rest := p + [dirs[0]], dirs[1..];
      WithDirsHas(if r in a then a else a[r := Directory], r, rest, q);
      assert dirs[..1] == [dirs[0]];
      assert forall k :: 1 <= k <= |rest| ==> r + rest[..k] == p + dirs[..k + 1];
      if q in WithDirs(a, p, dirs) && q !in a && q != r {
        var k :| 1 <= k <= |rest| && q == r + rest[..k];
        assert q == p + dirs[..k + 1];
      }
      if k :| 1 <= k <= |dirs| && q == p + dirs[..k] {
        if k > 1 { assert q == r + rest[..k - 1]; }
      }
    }
  }

  /** Some entry lies at the path or under it. */
  ghost predicate Listed(es: seq<Entry>, n: nat, q: Path) {
    q == [] || exists i :: 0 <= i < n <= |es| && q <= es[i].parts
  }

  /** The path is that of a file among the entries. */
  ghost predicate FileAt(es: seq<Entry>, n: nat, q: Path, content: Content) {
    exists i :: 0 <= i < n <= |es| && es[i] == Entry(q, content) && content != Directory
  }

  /** A file has a path of its own, with nothing under it. Directories may be listed more than once,
      and before or after what is in them. */
  ghost predicate Compatible(es: seq<Entry>) {
    && (forall i :: 0 <= i < |es| ==> Plain(es[i].parts) && (es[i].content != Directory ==> es[i].parts != []))
    && (forall i, j ::
        0 <= i < |es| && 0 <= j < |es| && i != j && es[i].content != Directory ==> !(es[i].parts <= es[j].parts))
  }

  /** The map has exactly the paths of the first `n` entries and the directories above them, and
      the contents of the files. */
  ghost predicate Describes(a: map<Path, Content>, es: seq<Entry>, n: nat) {
    && (forall q :: q in a <==> Listed(es, n, q))
    && (forall q :: q in a && a[q] != Directory ==> FileAt(es, n, q, a[q]))
    && (forall i ::
        0 <= i < n <= |es| && es[i].content != Directory ==> es[i].parts in a && a[es[i].parts] == es[i].content)
  }

  /** Nothing is in the way of an entry of a compatible list. */
  lemma {:induction false} EntryFree(a: map<Path, Content>, es: seq<Entry>, n: nat)
    requires Compatible(es) && n < |es| && Describes(a, es, n)
    ensures es[n].parts != [] ==> Free(a, [], es[n].parts[..|es[n].parts| - 1])
    ensures es[n].content != Directory ==> es[n].parts !in a
  {
    var parts := es[n].parts;
    if parts != [] {
      var dirs := parts[..|parts| - 1];
      forall k | 1 <= k <= |dirs| && [] + dirs[..k] in a ensures a[[] + dirs[..k]] == Directory {
        var q := [] + dirs[..k];
        assert q == parts[..k] && q <= parts;
        assert forall i :: 0 <= i < n && es[i].content != Directory ==> es[i].parts != q;
      }
    }
  }

  /** A path to an entry is the root, one of its directories or its own. */
  lemma {:induction false} PrefixCases(parts: Path, q: Path)
    requires parts != []
    ensures var dirs := parts[..|parts| - 1];
      q <= parts <==> q == [] || q == parts || exists k :: 1 <= k <= |dirs| && q == [] + dirs[..k]
  {
    var dirs := parts[..|parts| - 1];
    if q <= parts && q != [] && q != parts {
      assert q == [] + dirs[..|q|];
    }
    if k :| 1 <= k <= |dirs| && q == [] + dirs[..k] {
      assert q == parts[..k];
    }
  }

  lemma {:induction false} InsertionHas(a: map<Path, Content>, e: Entry, q: Path)
    requires e.parts != [] && [] in a
    ensures q in Insertion(a, e) <==> q in a || q <= e.parts
    ensures q in a ==> Insertion(a, e)[q] == a[q]
    ensures q !in a && q in Insertion(a, e) && q != e.parts ==> Insertion(a, e)[q] == Directory
    ensures e.parts !in a ==> e.parts in Insertion(a, e) && Insertion(a, e)[e.parts] == e.content
  {
    hide WithDirs;
    var dirs := e.parts[..|e.parts| - 1];
    PrefixCases(e.parts, q);
    WithDirsHas(a, [], dirs, q);
    WithDirsHas(a, [], dirs, e.parts);
    assert forall k :: 1 <= k <= |dirs| ==> |[] + dirs[..k]| < |e.parts|;
  }

  lemma {:induction false} DescribesStep(a: map<Path, Content>, es: seq<Entry>, n: nat)
    requires Compatible(es) && n < |es| && Describes(a, es, n)
    ensures Describes(Insertion(a, es[n]), es, n + 1)
  {
    hide Insertion, Plain, Free;
    var b := Insertion(a, es[n]);
    EntryFree(a, es, n);
    assert Listed(es, n, []);
    if es[n].parts == [] {
      NoInsertion(a, es[n]);
    } else {
      forall q
        ensures q in b <==> q in a || q <= es[n].parts
        ensures q in a ==> b[q] == a[q]
        ensures q in b && q !in a ==> if q == es[n].parts then b[q] == es[n].content else b[q] == Directory
      {
        InsertionHas(a, es[n], q);
      }
    }
    forall q ensures q in b <==> Listed(es, n + 1, q) {
      ListedMore(es, n, q);
    }
    forall q | q in b && b[q] != Directory ensures FileAt(es, n + 1, q, b[q]) {
      if q in a {
        var i :| 0 <= i < n <= |es| && es[i] == Entry(q, a[q]);
        assert es[i] == Entry(q, b[q]);
      } else {
        assert es[n] == Entry(q, b[q]);
      }
    }
  }

  lemma {:induction false} NoInsertion(a: map<Path, Content>, e: Entry)
    requires e.parts == []
    ensures Insertion(a, e) == a
  {}

  lemma {:induction false} ListedMore(es: seq<Entry>, n: nat, q: Path)
    requires n < |es|
    ensures Listed(es, n + 1, q) <==> Listed(es, n, q) || q <= es[n].parts
  {
    if q != [] && Listed(es, n + 1, q) {
      var i :| 0 <= i < n + 1 <= |es| && q <= es[i].parts;
      assert i == n || 0 <= i < n;
    }
    if q != [] && Listed(es, n, q) {
      var i :| 0 <= i < n <= |es| && q <= es[i].parts;
      assert 0 <= i < n + 1;
    }
  }

  /** The tree of a compatible list of entries, in any order. */
  lemma {:induction false} TreeDescribes(nodes: seq<Node>, a: map<Path, Content>, es: seq<Entry>, n: nat)
    returns (b: map<Path, Content>)
    requires Compatible(es) && n <= |es| && Shows(nodes, a) && Describes(a, es, n)
    ensures Shows(InsertAll(nodes, es[n..]), b) && Describes(b, es, |es|)
    decreases |es| - n
  {
    hide Shows, Insert, Insertion, Describes;
    SoundRoot(nodes, a);
    if n == |es| {
      b := a;
    } else {
      EntryFree(a, es, n);
      InsertShows(nodes, a, es[n]);
      DescribesStep(a, es, n);
      assert es[n..][1..] == es[n + 1..];
      b := TreeDescribes(Insert(nodes, es[n]), Insertion(a, es[n]), es, n + 1);
    }
  }

  lemma {:induction false} EmptyShows(es: seq<Entry>)
    ensures Shows(EMPTY, map[[] := Directory]) && Describes(map[[] := Directory], es, 0)
  {
    forall q | Plain(q) ensures Walk(EMPTY, ROOT, q).Some? <==> q == [] {
      if q != [] { assert q[0] in q; }
    }
  }

  /** Walking to the path of a file finds its bytes; walking to a directory finds a directory; any
      other path is not found. */
  lemma {:induction false} TreeAgrees(es: seq<Entry>, q: Path)
    requires Compatible(es) && Plain(q)
    ensures var nodes := InsertAll(EMPTY, es); var r := Walk(nodes, ROOT, q);
      ((r.Some? <==> Listed(es, |es|, q))
       && (r.Some? ==> forall i ::
         0 <= i < |es| && es[i].parts == q && es[i].content != Directory ==> nodes[r.value].content == es[i].content)
       && (r.Some? && (forall i :: 0 <= i < |es| && es[i].parts == q ==> es[i].content == Directory)
         ==> nodes[r.value].content == Directory))
  {
    hide Walk, InsertAll, Listed;
    EmptyShows(es);
    var b := TreeDescribes(EMPTY, map[[] := Directory], es, 0);
    assert es[0..] == es;
  }
}
