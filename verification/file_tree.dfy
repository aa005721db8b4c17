/** The directory-tree builder of parser/parser.py: it turns the top-down
    listing of a directory walk into a tree of directory nodes, each
    holding the Java source files found directly in it. */
module FileTree {
  import opened Common

  /** One entry of the listing: a directory path, the names of its
      sub-directories and the names of its files, as a top-down walk
      yields them. */
  datatype Entry = Entry(root: string, dirs: seq<string>, files: seq<string>)

  /** A directory node: its name, its source file paths and its children,
      as positions in the node list. */
  datatype TreeNode = TreeNode(directory: string, files: seq<string>, children: seq<nat>)

  /** The builder's working state: every node made so far (the root first),
      the stack of nodes still waiting for their entry, top last, and the
      node each entry so far was given. */
  datatype Build = Build(nodes: seq<TreeNode>, stack: seq<nat>, given: seq<nat>)

  /** Why the builder stops: an empty listing (the first entry is read
      unconditionally), or an entry with no node left on the stack. */
  datatype TreeError = NoEntries | StackEmpty(at: nat)

  /** The accepted extension. */
  const JavaExtension := ".java"

  /** The extension of a file name: the text from its last `.`, or nothing
      when it has none. */
  function Extension(name: string): (r: string)
    ensures |r| <= |name| && r == name[|name| - |r|..]
    ensures |r| > 0 ==> r[0] == '.' && forall k :: 0 < k < |r| ==> r[k] != '.'
    ensures |r| == 0 ==> forall k :: 0 <= k < |name| ==> name[k] != '.'
  {
    if |name| == 0 then ""
    else if name[|name| - 1] == '.' then "."
    else
      var e := Extension(name[..|name| - 1]);
      if |e| == 0 then "" else e + [name[|name| - 1]]
  }

  /** The extension is the last dotted suffix: a name made of any stem
      and a suffix that starts with the only `.` in it has that suffix as
      its extension. */
  lemma {:induction false} ExtensionIsLastDotted(stem: string, suffix: string)
    requires |suffix| > 0 && suffix[0] == '.' && forall k :: 0 < k < |suffix| ==> suffix[k] != '.'
    ensures Extension(stem + suffix) == suffix
  {
    var name := stem + suffix;
    if |suffix| > 1 {
      var shorter := suffix[..|suffix| - 1];
      assert name[..|name| - 1] == stem + shorter;
      ExtensionIsLastDotted(stem, shorter);
      assert shorter + [suffix[|suffix| - 1]] == suffix;
    }
  }

  /** Python's `os.path.join(root, name)`: an absolute name replaces the
      root, and a separator goes between them unless the root is empty or
      already ends in one. */
  function PathJoin(root: string, name: string): (r: string)
    ensures |name| > 0 && name[0] == '/' ==> r == name
    ensures !(|name| > 0 && name[0] == '/') ==>
      |r| >= |root| + |name| && r[|r| - |name|..] == name && r[..|root|] == root
  {
    if |name| > 0 && name[0] == '/' then name
    else if |root| == 0 || root[|root| - 1] == '/' then root + name
    else root + "/" + name
  }

  /** The paths a node gets for the file names of its entry: the accepted
      names, in listing order, each joined to the entry's path. */
  function SourcePaths(root: string, files: seq<string>): (r: seq<string>)
    ensures |r| <= |files|
  {
    if |files| == 0 then []
    else
      var rest := SourcePaths(root, files[..|files| - 1]);
      var f := files[|files| - 1];
      if Extension(f) == JavaExtension then rest + [PathJoin(root, f)] else rest
  }

  /** A path is among a node's source paths exactly when it is an accepted
      file name of the entry joined to the entry's path. */
  lemma {:induction false} SourcePathsMembers(root: string, files: seq<string>)
    ensures forall p :: p in SourcePaths(root, files) <==>
      exists f :: f in files && Extension(f) == JavaExtension && p == PathJoin(root, f)
  {
    if |files| > 0 {
      var init := files[..|files| - 1];
      var f := files[|files| - 1];
      SourcePathsMembers(root, init);
      assert files == init + [f];
      forall p | p in SourcePaths(root, files)
        ensures exists g :: g in files && Extension(g) == JavaExtension && p == PathJoin(root, g)
      {
        if p !in SourcePaths(root, init) {
          assert f in files && Extension(f) == JavaExtension && p == PathJoin(root, f);
        } else {
          var g :| g in init && Extension(g) == JavaExtension && p == PathJoin(root, g);
          assert g in files;
        }
      }
      forall p | exists g :: g in files && Extension(g) == JavaExtension && p == PathJoin(root, g)
        ensures p in SourcePaths(root, files)
      {
        var g :| g in files && Extension(g) == JavaExtension && p == PathJoin(root, g);
        if g !in init {
          assert g == f;
        }
      }
    }
  }

  /** `count` consecutive node positions from `n`. */
  function Fresh(n: nat, count: nat): (r: seq<nat>)
    ensures |r| == count && forall j :: 0 <= j < count ==> r[j] == n + j
  {
    seq(count, j => n + j)
  }

  /** New child-less nodes named by `names`, in order. */
  function Leaves(names: seq<string>): (r: seq<TreeNode>)
    ensures |r| == |names| && forall j :: 0 <= j < |names| ==> r[j] == TreeNode(names[j], [], [])
  {
    seq(|names|, j requires 0 <= j < |names| => TreeNode(names[j], [], []))
  }

  /** One round of the loop, for entry `e`, the `k`th: the stack's top
      node takes the entry's source paths, and one new node per
      sub-directory is appended to its children in reverse listing order
      and pushed, so that the first-listed sub-directory ends on top. */
  function Visit(b: Build, e: Entry, k: nat): (r: Result<Build, TreeError>)
    requires forall j :: 0 <= j < |b.stack| ==> b.stack[j] < |b.nodes|
    ensures r.Err? <==> |b.stack| == 0
    ensures r.Err? ==> r.error == StackEmpty(k)
    ensures r.Ok? ==> var top := b.stack[|b.stack| - 1];
      && r.value.given == b.given + [top]
      && r.value.stack == b.stack[..|b.stack| - 1] + Fresh(|b.nodes|, |e.dirs|)
      && r.value.nodes == b.nodes[top := b.nodes[top].(files := SourcePaths(e.root, e.files),
                                                      children := b.nodes[top].children + Fresh(|b.nodes|, |e.dirs|))]
                          + Leaves(Reverse(e.dirs))
  {
    if |b.stack| == 0 then Err(StackEmpty(k))
    else
      var top := b.stack[|b.stack| - 1];
      var pushed := Fresh(|b.nodes|, |e.dirs|);
      var node := b.nodes[top].(files := SourcePaths(e.root, e.files), children := b.nodes[top].children + pushed);
      Ok(Build(b.nodes[top := node] + Leaves(Reverse(e.dirs)), b.stack[..|b.stack| - 1] + pushed, b.given + [top]))
  }

  /** After a round for an entry with sub-directories the node on top of
      the stack is the first-listed one. */
  lemma FirstListedOnTop(b: Build, e: Entry, k: nat)
    requires forall j :: 0 <= j < |b.stack| ==> b.stack[j] < |b.nodes|
    requires Visit(b, e, k).Ok? && |e.dirs| > 0
    ensures var r := Visit(b, e, k).value; r.nodes[r.stack[|r.stack| - 1]].directory == e.dirs[0]
  {
    var r := Visit(b, e, k).value;
    var n := |b.nodes|;
    var d := |e.dirs|;
    assert r.stack[|r.stack| - 1] == n + d - 1;
    assert r.nodes[n + d - 1] == Leaves(Reverse(e.dirs))[d - 1];
  }

  /** The bookkeeping the builder keeps after `n` entries: the stack and
      the given nodes refer to existing nodes; no node is both waiting and
      given, or given twice, or waiting twice; and a waiting node has no
      children yet. */
  predicate Shape(n: nat, b: Build) {
    && |b.given| == n
    && (forall j :: 0 <= j < |b.stack| ==> b.stack[j] < |b.nodes| && b.nodes[b.stack[j]].children == [])
    && (forall j :: 0 <= j < n ==> b.given[j] < |b.nodes|)
    && (forall i, j :: 0 <= i < j < |b.stack| ==> b.stack[i] != b.stack[j])
    && (forall i, j :: 0 <= i < j < n ==> b.given[i] != b.given[j])
    && (forall i, j :: 0 <= i < |b.stack| && 0 <= j < n ==> b.stack[i] != b.given[j])
  }

  /** The node the `j`th entry was given holds that entry's source paths,
      and its children are nodes named by the entry's sub-directories, in
      reverse listing order. */
  predicate RecordedAt(entries: seq<Entry>, j: nat, b: Build)
    requires j < |entries| && j < |b.given| && b.given[j] < |b.nodes|
  {
    var node := b.nodes[b.given[j]];
    var dirs := entries[j].dirs;
    && node.files == SourcePaths(entries[j].root, entries[j].files)
    && |node.children| == |dirs|
    && forall c :: 0 <= c < |dirs| ==>
         node.children[c] < |b.nodes| && b.nodes[node.children[c]].directory == dirs[|dirs| - 1 - c]
  }

  /** Every one of the first `n` entries is recorded. */
  predicate Recorded(entries: seq<Entry>, n: nat, b: Build)
    requires n <= |entries| && Shape(n, b)
  {
    forall j :: 0 <= j < n ==> RecordedAt(entries, j, b)
  }

  /** The builder's invariant after `n` entries. */
  predicate Consistent(entries: seq<Entry>, n: nat, b: Build)
    requires n <= |entries|
  {
    Shape(n, b) && Recorded(entries, n, b)
  }

  /** The loop over the first `n` entries, starting from the root node on
      the stack, named by the first entry's path and holding its file names
      until its entry is visited. */
  function Walk(entries: seq<Entry>, n: nat): (r: Result<Build, TreeError>)
    requires 0 < |entries| && n <= |entries|
    ensures r.Ok? ==> Consistent(entries, n, r.value)
    ensures r.Ok? ==> |r.value.nodes| > 0 && r.value.nodes[0].directory == entries[0].root
    ensures r.Ok? && n > 0 ==> r.value.given[0] == 0
  {
    if n == 0 then Ok(Build([TreeNode(entries[0].root, entries[0].files, [])], [0], []))
    else
      match Walk(entries, n - 1)
      case Err(x) => Err(x)
      case Ok(b) =>
        var r := Visit(b, entries[n - 1], n - 1);
        if r.Ok? then
          VisitKeepsShape(b, entries[n - 1], n - 1);
          VisitKeepsRecorded(entries, n - 1, b);
          r
        else r
  }

  /** One round keeps the bookkeeping, and the first node's name. */
  lemma VisitKeepsShape(b: Build, e: Entry, k: nat)
    requires Shape(k, b) && Visit(b, e, k).Ok?
    ensures Shape(k + 1, Visit(b, e, k).value)
    ensures Visit(b, e, k).value.nodes[0].directory == b.nodes[0].directory
  {
    var r := Visit(b, e, k).value;
    var top := b.stack[|b.stack| - 1];
    var n := |b.nodes|;
    assert r.nodes[0].directory == b.nodes[0].directory;
    forall j | 0 <= j < |r.stack|
      ensures r.stack[j] < |r.nodes| && r.nodes[r.stack[j]].children == []
    {
      if j < |b.stack| - 1 {
        assert r.stack[j] == b.stack[j] != top;
      } else {
        assert r.nodes[r.stack[j]] == Leaves(Reverse(e.dirs))[r.stack[j] - n];
      }
    }
  }

  /** A recorded entry stays recorded when its node is untouched and no
      node is renamed. */
  lemma RecordedStays(entries: seq<Entry>, j: nat, b: Build, r: Build)
    requires j < |entries| && j < |b.given| && j < |r.given| && r.given[j] == b.given[j] < |b.nodes| <= |r.nodes|
    requires r.nodes[b.given[j]] == b.nodes[b.given[j]]
    requires forall x :: 0 <= x < |b.nodes| ==> r.nodes[x].directory == b.nodes[x].directory
    requires RecordedAt(entries, j, b)
    ensures RecordedAt(entries, j, r)
  {
  }

  /** One round records its own entry at the node on top of the stack. */
  lemma VisitRecordsEntry(entries: seq<Entry>, k: nat, b: Build)
    requires k < |entries| && Consistent(entries, k, b) && Visit(b, entries[k], k).Ok?
    requires Shape(k + 1, Visit(b, entries[k], k).value)
    ensures RecordedAt(entries, k, Visit(b, entries[k], k).value)
  {
    var e := entries[k];
    var r := Visit(b, e, k).value;
    var top := b.stack[|b.stack| - 1];
    var n := |b.nodes|;
    var children := r.nodes[top].children;
    assert children == Fresh(n, |e.dirs|);
    forall c | 0 <= c < |e.dirs|
      ensures children[c] < |r.nodes| && r.nodes[children[c]].directory == e.dirs[|e.dirs| - 1 - c]
    {
      assert r.nodes[n + c] == Leaves(Reverse(e.dirs))[c];
    }
  }

  /** One round keeps the record of the entries so far and adds the new one. */
  lemma VisitKeepsRecorded(entries: seq<Entry>, k: nat, b: Build)
    requires k < |entries| && Consistent(entries, k, b) && Visit(b, entries[k], k).Ok?
    requires Shape(k + 1, Visit(b, entries[k], k).value)
    ensures Recorded(entries, k + 1, Visit(b, entries[k], k).value)
  {
    var e := entries[k];
    var r := Visit(b, e, k).value;
    var top := b.stack[|b.stack| - 1];
    var n := |b.nodes|;
    assert forall x :: 0 <= x < n ==> r.nodes[x].directory == b.nodes[x].directory;
    forall j | 0 <= j < k
      ensures RecordedAt(entries, j, r)
    {
      assert r.given[j] == b.given[j] != top;
      RecordedStays(entries, j, b, r);
    }
    VisitRecordsEntry(entries, k, b);
  }

  /** `_generate_tree_from_list`: the node list, the root first. Each
      entry was given its own node, the first entry the root, and that node
      holds the entry's source files and one child per sub-directory. */
  function GenerateTree(entries: seq<Entry>): (r: Result<seq<TreeNode>, TreeError>)
    ensures |entries| == 0 ==> r == Err(NoEntries)
    ensures r.Ok? ==> |r.value| > 0 && r.value[0].directory == entries[0].root
    ensures r.Ok? ==> exists b: Build :: b.nodes == r.value && Consistent(entries, |entries|, b) && b.given[0] == 0
  {
    if |entries| == 0 then Err(NoEntries)
    else
      match Walk(entries, |entries|)
      case Err(x) => Err(x)
      case Ok(b) => Ok(b.nodes)
  }

  /** After an entry with sub-directories, the next entry is given the node
      of the first-listed one, which is the order a top-down walk lists
      them in. */
  lemma FirstListedNext(entries: seq<Entry>, k: nat)
    requires 0 < |entries| && k + 1 < |entries| && |entries[k].dirs| > 0
    requires Walk(entries, k + 2).Ok?
    ensures var b := Walk(entries, k + 2).value; b.nodes[b.given[k + 1]].directory == entries[k].dirs[0]
  {
    var b0 := Walk(entries, k).value;
    var b1 := Walk(entries, k + 1).value;
    var b2 := Walk(entries, k + 2).value;
    FirstListedOnTop(b0, entries[k], k);
    assert b2.given[k + 1] == b1.stack[|b1.stack| - 1];
  }
}
