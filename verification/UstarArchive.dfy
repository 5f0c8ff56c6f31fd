/** Reading a USTAR archive: the walk over its blocks and the nodes it makes. */
module UstarArchive {
  import opened Wrappers
  import opened Words
  import opened Numerals
  import opened FsPath
  import opened UstarTree
  import KernelConversion
  import Printf

  const BLOCK_SIZE := 512
  const NAME_SIZE := 100
  const SIZE_AT := 124
  const SIZE_DIGITS := 11
  const TYPE_AT := 156

  const DIRECTORY: Char := '5' as int

  /** What the archive says about one member. */
  datatype Member = Member(name: Text, kind: Char, data: Text)

  /** The blocks that hold so many bytes. */
  function Blocks(bytes: nat): nat { (bytes + BLOCK_SIZE - 1) / BLOCK_SIZE }

  lemma {:induction false} BlocksCover(bytes: nat)
    ensures bytes <= Blocks(bytes) * BLOCK_SIZE < bytes + BLOCK_SIZE
  {}

  function SizeField(archive: Text): nat
    requires |archive| >= BLOCK_SIZE
  {
    KernelConversion.Reading(archive[SIZE_AT..], 8, 0)
  }

  function MemberLength(archive: Text): (n: nat)
    requires |archive| >= BLOCK_SIZE
    ensures n >= BLOCK_SIZE
  {
    BLOCK_SIZE + Blocks(SizeField(archive)) * BLOCK_SIZE
  }

  /** Every header is a whole block, its data follow it, and a header without a name ends it all. */
  ghost predicate WellFormed(archive: Text)
    decreases |archive|
  {
    && 0 < |archive| < KernelConversion.LIMIT
    && (archive[0] != 0 ==>
          |archive| >= BLOCK_SIZE && MemberLength(archive) <= |archive| && WellFormed(archive[MemberLength(archive)..]))
  }

  function FirstMember(archive: Text): Member
    requires |archive| >= BLOCK_SIZE && MemberLength(archive) <= |archive|
  {
    BlocksCover(SizeField(archive));
    Member(Printf.CStr(archive), archive[TYPE_AT], archive[BLOCK_SIZE..BLOCK_SIZE + SizeField(archive)])
  }

  /** The members up to the header without a name. */
  function Members(archive: Text): seq<Member>
    requires WellFormed(archive)
    decreases |archive|
  {
    if archive[0] == 0 then [] else [FirstMember(archive)] + Members(archive[MemberLength(archive)..])
  }

  function EntryOf(m: Member): Entry {
    Entry(PartsOf(m.name), if m.kind == DIRECTORY then Directory else File(m.data))
  }

  function EntriesOf(ms: seq<Member>): (es: seq<Entry>)
    ensures |es| == |ms| && forall i :: 0 <= i < |ms| ==> es[i] == EntryOf(ms[i])
  {
    if ms == [] then [] else [EntryOf(ms[0])] + EntriesOf(ms[1..])
  }

  // ---------- Archives as they are written ----------

  function SizeDigits(block: Text): Text
    requires |block| == BLOCK_SIZE
  {
    block[SIZE_AT..SIZE_AT + SIZE_DIGITS]
  }

  /** A header block for the member: the name with a NUL after it, the size in eleven octal digits
      with a NUL or a space after them, the type. The other fields may hold anything. */
  ghost predicate Heads(block: Text, m: Member) {
    && |block| == BLOCK_SIZE
    && 0 < |m.name| < NAME_SIZE && 0 !in m.name && m.name <= block && block[|m.name|] == 0
    && AllDigits(SizeDigits(block), 8) && Value(SizeDigits(block), 8) == |m.data|
    && KernelConversion.Ends(block[SIZE_AT + SIZE_DIGITS])
    && block[TYPE_AT] == m.kind
  }

  /** The archive holds the members in this order, each with its data in whole blocks. */
  ghost predicate Encodes(archive: Text, ms: seq<Member>)
    decreases |ms|
  {
    if ms == [] then 0 < |archive| < KernelConversion.LIMIT && archive[0] == 0
    else
      var n := BLOCK_SIZE + Blocks(|ms[0].data|) * BLOCK_SIZE;
      && |archive| < KernelConversion.LIMIT && n <= |archive| && BLOCK_SIZE + |ms[0].data| <= |archive|
      && Heads(archive[..BLOCK_SIZE], ms[0]) && archive[BLOCK_SIZE..BLOCK_SIZE + |ms[0].data|] == ms[0].data
      && Encodes(archive[n..], ms[1..])
  }

  /** The header with its fields one after another, as the format lays them out: name, mode, owner, group,
      size, time and checksum, the type, and what the decoder does not read. */
  lemma {:induction false} HeaderOfFields(m: Member, name: Text, mode: Text, owner: Text, group: Text, size: Text,
                                          time: Text, checksum: Text, others: Text)
    requires |name| == 100 && |mode| == 8 && |owner| == 8 && |group| == 8 && |size| == 12 && |time| == 12
    requires |checksum| == 8 && |others| == 355
    requires 0 < |m.name| < 100 && 0 !in m.name && m.name <= name && name[|m.name|] == 0
    requires AllDigits(size[..11], 8) && Value(size[..11], 8) == |m.data| && (size[11] == 0 || size[11] == ' ' as int)
    ensures Heads(name + mode + owner + group + size + time + checksum + [m.kind] + others, m)
  {
    hide Value, AllDigits;
    var before, after := name + mode + owner + group, time + checksum + [m.kind] + others;
    var block := name + mode + owner + group + size + time + checksum + [m.kind] + others;
    assert block == before + (size + after) && |before| == 124;
    assert block[124..135] == size[..11] && block[135] == size[11];
    assert block == (before + size + time + checksum) + ([m.kind] + others);
    assert m.name <= block && block[|m.name|] == name[|m.name|];
  }

  /** Type '5' is a directory, and every other a file. */
  lemma {:induction false} KindOf(m: Member)
    ensures EntryOf(m).content == if m.kind == '5' as int then Directory else File(m.data)
  {}

  /** The octal size is read as the length of the data. */
  lemma {:induction false} SizeReads(archive: Text, m: Member)
    requires |archive| >= BLOCK_SIZE && Heads(archive[..BLOCK_SIZE], m)
    ensures SizeField(archive) == |m.data|
  {
    var block := archive[..BLOCK_SIZE];
    var size, rest := block[SIZE_AT..SIZE_AT + SIZE_DIGITS], archive[SIZE_AT + SIZE_DIGITS..];
    assert archive[SIZE_AT..] == size + rest;
    assert rest[0] == block[SIZE_AT + SIZE_DIGITS];
    assert size[..0] == [] && (size + rest)[0..] == size + rest;
    OctalBound(size);
    KernelConversion.ReadsDigits(size, rest, 8, 0);
  }

  /** Eleven octal digits fit in 33 bits. */
  lemma {:induction false} OctalBound(s: Text)
    requires |s| == SIZE_DIGITS && AllDigits(s, 8)
    ensures Value(s, 8) < TWO_64
  {
    ValueBound(s, 8);
    Pow2Values();
    Pow2Less(33, 64);
  }

  lemma {:induction false} ValueBound(s: Text, base: nat)
    requires base == 8 && AllDigits(s, base)
    ensures Value(s, base) < Pow2(3 * |s|)
    decreases |s|
  {
    if s != [] {
      var t := s[..|s| - 1];
      assert AllDigits(t, base) by { assert forall i :: 0 <= i < |t| ==> t[i] == s[i]; }
      ValueBound(t, base);
      assert Pow2(3 * |t| + 2) == 2 * Pow2(3 * |t| + 1);
      assert Pow2(3 * |s|) == 8 * Pow2(3 * |t|);
    }
  }

  /** An archive is read as the members it was written from. */
  lemma {:induction false} MembersInvertEncoding(archive: Text, ms: seq<Member>)
    requires Encodes(archive, ms)
    ensures WellFormed(archive) && Members(archive) == ms
    decreases |ms|
  {
    hide Heads, SizeField, Blocks;
    if ms != [] {
      var m := ms[0];
      SizeReads(archive, m);
      HeadReads(archive, m);
      MembersInvertEncoding(archive[MemberLength(archive)..], ms[1..]);
      assert ms == [m] + ms[1..];
    }
  }

  lemma {:induction false} HeadReads(archive: Text, m: Member)
    requires |archive| >= BLOCK_SIZE && Heads(archive[..BLOCK_SIZE], m)
    ensures archive[0] != 0 && archive[TYPE_AT] == m.kind && Printf.CStr(archive) == m.name
  {
    var block := archive[..BLOCK_SIZE];
    assert archive[0] == block[0] == m.name[0] && m.name[0] in m.name;
    assert archive[..|m.name|] == m.name && archive[|m.name|] == block[|m.name|];
    Printf.CStrIs(archive, |m.name|);
  }

  // ---------- The nodes ----------

  class FileTree {
    var nodes: seq<Node>

    /** The root alone. */
    constructor ()
      ensures nodes == EMPTY
    {
      nodes := [Node([SLASH], Directory, [])];
    }

    method LookupChild(x: nat, name: Text) returns (r: Option<nat>)
      requires Sound(nodes) && x < |nodes|
      ensures r == Lookup(nodes, x, name)
    {
      if nodes[x].content != Directory { return None; }
      if name == [SLASH] { return Some(ROOT); }
      var children := nodes[x].children;
      assert children[0..] == children;
      for i := 0 to |children|
        invariant FirstNamed(nodes, children, name) == FirstNamed(nodes, children[i..], name)
      {
        if nodes[children[i]].name == name { return Some(children[i]); }
        assert children[i..][1..] == children[i + 1..];
      }
      return None;
    }

    method FindDirectory(parent: nat, name: Text) returns (r: Option<nat>)
      requires Sound(nodes) && parent < |nodes|
      ensures r == FindDir(nodes, parent, name)
    {
      var existing := LookupChild(parent, name);
      if existing.Some? && nodes[existing.value].content == Directory { return existing; }
      return None;
    }

    /** A new node is pushed into the vector of its parent. */
    method PushNode(parent: nat, name: Text, content: Content) returns (k: nat)
      requires Sound(nodes) && parent < |nodes| && nodes[parent].content == Directory
      modifies this
      ensures k == |old(nodes)| && nodes == AddNode(old(nodes), parent, name, content)
    {
      k := |nodes|;
      var p := nodes[parent];
      nodes := nodes[parent := Node(p.name, p.content, p.children + [k])];
      nodes := nodes + [Node(name, content, [])];
    }

    /** The directories above a member, then its node. */
    method InsertMember(parts: Path, content: Content)
      requires Sound(nodes) && parts != []
      modifies this
      ensures nodes == Insert(old(nodes), Entry(parts, content))
    {
      hide FindDir, AddNode, Lookup;
      var name := parts[|parts| - 1];
      ghost var dirs := parts[..|parts| - 1];
      var parent: nat := ROOT;
      assert dirs[0..] == dirs;
      for i := 0 to |parts| - 1
        invariant Sound(nodes) && parent < |nodes| && nodes[parent].content == Directory
        invariant MakeDirs(old(nodes), ROOT, dirs) == MakeDirs(nodes, parent, dirs[i..])
      {
        assert dirs[i..][0] == parts[i] && dirs[i..][1..] == dirs[i + 1..];
        var next := FindDirectory(parent, parts[i]);
        if next.None? {
          var made := PushNode(parent, parts[i], Directory);
          next := Some(made);
        }
        parent := next.value;
      }
      var _ := PushNode(parent, name, content);
    }

    /** `parseArchive` on a tree that has its root. */
    method ParseArchive(archive: Text)
      requires Sound(nodes) && WellFormed(archive)
      modifies this
      ensures nodes == InsertAll(old(nodes), EntriesOf(Members(archive)))
    {
      hide Insert, FirstMember, EntryOf, KernelConversion.Reading, Members, InsertAll, EntriesOf, Printf.CStr, PartsOf;
      var at: nat := 0;
      assert archive[0..] == archive;
      while archive[at] != 0
        invariant at < |archive| && WellFormed(archive[at..]) && Sound(nodes)
        invariant InsertAll(old(nodes), EntriesOf(Members(archive)))
          == InsertAll(nodes, EntriesOf(Members(archive[at..])))
        decreases |archive| - at
      {
        var here := archive[at..];
        var bytes := KernelConversion.StringToInt(here[SIZE_AT..], 8);
        var path := Printf.CStr(here);
        var parts := ParsePath(path);
        var blocks := (bytes + BLOCK_SIZE - 1) / BLOCK_SIZE;
        BlocksCover(bytes);
        var content := if here[TYPE_AT] == DIRECTORY then Directory else File(here[BLOCK_SIZE..BLOCK_SIZE + bytes]);
        OneMember(nodes, here, parts, content);
        if parts != [] { InsertMember(parts, content); }
        at := at + (BLOCK_SIZE + blocks * BLOCK_SIZE);
        assert here[MemberLength(here)..] == archive[at..];
      }
      NoMember(nodes, archive[at..]);
    }

    static lemma {:induction false} NoMember(nodes: seq<Node>, here: Text)
      requires Sound(nodes) && WellFormed(here) && here[0] == 0
      ensures InsertAll(nodes, EntriesOf(Members(here))) == nodes
    {}

    /** What one round does for the members that are left. */
    static lemma {:induction false} OneMember(nodes: seq<Node>, here: Text, parts: Path, content: Content)
      requires Sound(nodes) && WellFormed(here) && here[0] != 0
      requires parts == PartsOf(Printf.CStr(here))
      requires content == if here[TYPE_AT] == DIRECTORY then Directory
        else File(here[BLOCK_SIZE..BLOCK_SIZE + SizeField(here)])
      ensures InsertAll(nodes, EntriesOf(Members(here)))
        == InsertAll(if parts == [] then nodes
          else Insert(nodes, Entry(parts, content)), EntriesOf(Members(here[MemberLength(here)..])))
    {
      hide SizeField, MakeDirs;
      var rest := here[MemberLength(here)..];
      var ms := Members(here);
      assert ms[0] == FirstMember(here) && ms[1..] == Members(rest);
      assert EntriesOf(ms)[0] == Entry(parts, content) && EntriesOf(ms)[1..] == EntriesOf(ms[1..]);
    }

    /** `lookup` along the parts of a path, from the root. */
    method Resolve(parts: Path) returns (r: Option<nat>)
      requires Sound(nodes)
      ensures r == Walk(nodes, ROOT, parts)
    {
      hide Lookup;
      var current: nat := ROOT;
      assert parts[0..] == parts;
      for i := 0 to |parts|
        invariant current < |nodes| && Walk(nodes, ROOT, parts) == Walk(nodes, current, parts[i..])
      {
        assert parts[i..][1..] == parts[i + 1..];
        var child := LookupChild(current, parts[i]);
        if child.None? { return None; }
        current := child.value;
      }
      return Some(current);
    }
  }

  /** The names that an archiver writes: "./a/b" for the parts a and b, with a slash at the end of
      a directory perhaps. */
  ghost predicate NameFor(name: Text, parts: Path) {
    && (forall p :: p in parts ==> IsPart(p))
    && (name == ['.' as int] + Join(parts) || name == ['.' as int] + Join(parts) + [SLASH])
  }

  lemma {:induction false} NameParts(name: Text, parts: Path)
    requires NameFor(name, parts)
    ensures PartsOf(name) == parts && Plain(parts)
  {
    var head: Text := ['.' as int];
    assert name != [SLASH] by { assert name[0] == '.' as int; }
    PartsOfJoin(head, parts, []);
    PartsOfJoin(head, parts, [SLASH]);
    assert head + Join(parts) + [] == head + Join(parts);
    assert [SLASH][0] == SLASH && !IsPart([SLASH]);
  }

  /** Every path of an archive is found with what the archive holds under it, and no other path is,
      whatever the order of the members. */
  method Unpack(archive: Text, ghost ms: seq<Member>, ghost paths: seq<Path>) returns (tree: FileTree)
    requires Encodes(archive, ms) && |paths| == |ms| && forall i :: 0 <= i < |ms| ==> NameFor(ms[i].name, paths[i])
    requires Compatible(EntriesOf(ms))
    ensures fresh(tree) && Sound(tree.nodes)
    ensures forall q :: Plain(q) ==>
      (Walk(tree.nodes, ROOT, q).Some? <==> q == [] || exists i :: 0 <= i < |paths| && q <= paths[i])
    ensures forall i :: 0 <= i < |ms| && ms[i].kind != DIRECTORY ==>
      Walk(tree.nodes, ROOT, paths[i]).Some?
        && tree.nodes[Walk(tree.nodes, ROOT, paths[i]).value].content == File(ms[i].data)
  {
    hide Encodes, WellFormed, Members, InsertAll, Walk, Listed, NameFor, Compatible;
    MembersInvertEncoding(archive, ms);
    tree := new FileTree();
    tree.ParseArchive(archive);
    forall q | Plain(q)
      ensures Walk(tree.nodes, ROOT, q).Some? <==> q == [] || exists i :: 0 <= i < |paths| && q <= paths[i]
    {
      PathFound(ms, paths, q);
    }
    forall i | 0 <= i < |ms| && ms[i].kind != DIRECTORY
      ensures Walk(tree.nodes, ROOT, paths[i]).Some?
        && tree.nodes[Walk(tree.nodes, ROOT, paths[i]).value].content == File(ms[i].data)
    {
      FileFound(ms, paths, i);
    }
  }

  lemma {:induction false} PathFound(ms: seq<Member>, paths: seq<Path>, q: Path)
    requires |paths| == |ms| && (forall i :: 0 <= i < |ms| ==> NameFor(ms[i].name, paths[i]))
      && Compatible(EntriesOf(ms)) && Plain(q)
    ensures Walk(InsertAll(EMPTY, EntriesOf(ms)), ROOT, q).Some?
      <==> q == [] || exists i :: 0 <= i < |paths| && q <= paths[i]
  {
    hide Walk, InsertAll, NameFor, Compatible, PartsOf, Plain;
    var es := EntriesOf(ms);
    forall i | 0 <= i < |ms| ensures es[i].parts == paths[i] { NameParts(ms[i].name, paths[i]); }
    TreeAgrees(es, q);
    forall i | 0 <= i < |ms| ensures q <= es[i].parts <==> q <= paths[i] {}
  }

  lemma {:induction false} FileFound(ms: seq<Member>, paths: seq<Path>, i: nat)
    requires |paths| == |ms| && i < |ms| && NameFor(ms[i].name, paths[i])
      && Compatible(EntriesOf(ms)) && ms[i].kind != DIRECTORY
    ensures var nodes := InsertAll(EMPTY, EntriesOf(ms)); var r := Walk(nodes, ROOT, paths[i]);
      r.Some? && nodes[r.value].content == File(ms[i].data)
  {
    hide Walk, InsertAll, NameFor, Compatible, PartsOf, Plain;
    var es := EntriesOf(ms);
    NameParts(ms[i].name, paths[i]);
    TreeAgrees(es, paths[i]);
    assert paths[i] <= es[i].parts;
  }
}
