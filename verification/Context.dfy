/**
  Packing a build context (`crates/rustlet-build/src/context.rs`) over a
  finite readable tree: the walk with its pruning and its pending
  directories, against the filtered preorder of the tree.
*/
module Context {
  import opened Common
  import opened ByteOrder
  import opened Ignore

  datatype Node =
    | File(size: nat)
    | Symlink(target: string)
    | Special                                // a FIFO, a socket, a device
    | Directory(entries: seq<Named<Node>>)   // in the order the system lists them

  datatype Item =
    | DirectoryItem(path: string)
    | FileItem(path: string, size: nat)
    | SymlinkItem(path: string, target: string)

  const OUTSIDE_NAME := ".rustlet-containerfile"

  /** What a walk is given: the rules, the paths it must keep, and the size of a Containerfile from outside. */
  datatype Config = Config(engine: Engine, rules: seq<Pattern>, always: seq<string>, outside: Option<nat>)

  function Join(rel: string, name: string): string {
    if rel == "" then name else rel + "/" + name
  }

  function ItemOf(rel: string, node: Node): Item
    requires !node.Special?
  {
    match node
    case File(size) => FileItem(rel, size)
    case Symlink(target) => SymlinkItem(rel, target)
    case Directory(_) => DirectoryItem(rel)
  }

  // ---------------------------------------------------------------- meaning

  /** The path is not excluded, or is kept whatever the rules say. */
  predicate Included(c: Config, rel: string) {
    rel in c.always || (c.outside.Some? && rel == OUTSIDE_NAME) || !Excluded(c.engine, c.rules, rel)
  }

  /** An excluded directory the walk must look into. */
  predicate Enters(c: Config, rel: string) {
    MayIncludeBelow(c.rules, rel) || exists i :: 0 <= i < |c.always| && rel + "/" <= c.always[i]
  }

  /** A directory's item before what is below it, left out when that is nothing and it need not be there. */
  function Wrap(always: bool, item: Item, below: seq<Item>): seq<Item> {
    if always || below != [] then [item] + below else []
  }

  /** What the node and everything below it put into the archive; with `prune`, as the walk cuts it short. */
  ghost function Items(c: Config, prune: bool, rel: string, node: Node): seq<Item>
    decreases node, 0
  {
    if prune && !Included(c, rel) && !Enters(c, rel) then []
    else match node
      case Special => []
      case Directory(entries) =>
        Wrap(Included(c, rel), DirectoryItem(rel), ItemsOf(c, prune, rel, Sort(entries), node))
      case _ => if Included(c, rel) then [ItemOf(rel, node)] else []
  }

  ghost function ItemsOf(c: Config, prune: bool, rel: string, entries: seq<Named<Node>>, parent: Node): seq<Item>
    requires forall e :: e in entries ==> e.item < parent
    decreases parent, 0, |entries|
  {
    if entries == [] then []
    else Items(c, prune, Join(rel, entries[0].name), entries[0].item) + ItemsOf(c, prune, rel, entries[1..], parent)
  }

  /** How many paths the walk counts as excluded. */
  ghost function Skipped(c: Config, rel: string, node: Node): nat
    decreases node, 0
  {
    if !Included(c, rel) && (!Enters(c, rel) || !node.Directory?) then 1
    else if node.Directory? then
      var below := SkippedOf(c, rel, Sort(node.entries), node);
      if Items(c, true, rel, node) == [] then 1 + below else below
    else 0
  }

  ghost function SkippedOf(c: Config, rel: string, entries: seq<Named<Node>>, parent: Node): nat
    requires forall e :: e in entries ==> e.item < parent
    decreases parent, 0, |entries|
  {
    if entries == [] then 0
    else Skipped(c, Join(rel, entries[0].name), entries[0].item) + SkippedOf(c, rel, entries[1..], parent)
  }

  /** Names as a file system has them: not empty, without a `/`, distinct in their directory. */
  ghost predicate WellNamed(node: Node)
    decreases node
  {
    node.Directory? ==>
      && DistinctNames(node.entries)
      && forall e :: e in node.entries ==> e.name != "" && '/' !in e.name && WellNamed(e.item)
  }

  ghost predicate WellNamedEntries(entries: seq<Named<Node>>) {
    forall e :: e in entries ==> e.name != "" && '/' !in e.name && WellNamed(e.item)
  }

  /** The context's root: a Containerfile from outside takes its name's place. */
  function RootEntries(c: Config, entries: seq<Named<Node>>): seq<Named<Node>> {
    if c.outside.None? then entries
    else Without(entries, OUTSIDE_NAME) + [Named(OUTSIDE_NAME, File(c.outside.value))]
  }

  function Without(entries: seq<Named<Node>>, name: string): (r: seq<Named<Node>>)
    ensures forall e :: e in r <==> e in entries && e.name != name
    ensures DistinctNames(entries) ==> DistinctNames(r)
  {
    if entries == [] then []
    else
      assert entries == [entries[0]] + entries[1..];
      var rest := Without(entries[1..], name);
      assert DistinctNames(entries) ==> forall e :: e in rest ==> e.name != entries[0].name;
      if entries[0].name == name then rest else [entries[0]] + rest
  }

  // --------------------------------------------------------------- the walk

  function Directories(pending: seq<string>): seq<Item> {
    seq(|pending|, i requires 0 <= i < |pending| => DirectoryItem(pending[i]))
  }

  function TotalBytes(items: seq<Item>): nat {
    if items == [] then 0
    else (if items[0].FileItem? then items[0].size else 0) + TotalBytes(items[1..])
  }

  lemma {:induction false} BytesAppend(a: seq<Item>, b: seq<Item>)
    ensures TotalBytes(a + b) == TotalBytes(a) + TotalBytes(b)
  {
    if a == [] {
      assert a + b == b;
    } else {
      assert (a + b)[1..] == a[1..] + b;
      BytesAppend(a[1..], b);
    }
  }

  /**
    What processing `items` does to the archive and to the pending
    directories: nothing when there are none; otherwise the pending
    directories go in first, and none is left.
  */
  ghost predicate Advanced(out: seq<Item>, pending: seq<string>, out': seq<Item>, pending': seq<string>, items: seq<Item>) {
    if items == [] then out' == out && pending' == pending
    else out' == out + Directories(pending) + items && pending' == []
  }

  lemma AdvancedTwice(out: seq<Item>, pending: seq<string>, a: seq<Item>,
                      out1: seq<Item>, pending1: seq<string>, b: seq<Item>,
                      out2: seq<Item>, pending2: seq<string>)
    requires Advanced(out, pending, out1, pending1, a) && Advanced(out1, pending1, out2, pending2, b)
    ensures Advanced(out, pending, out2, pending2, a + b)
  {
    if a == [] {
      assert a + b == b;
    } else if b == [] {
      assert a + b == a;
    } else {
      assert out2 == out + Directories(pending) + a + [] + b;
    }
  }

  /** Flushing a pending directory puts it just before what is below it. */
  lemma SpeculatedDirectory(out: seq<Item>, pending: seq<string>, rel: string, below: seq<Item>)
    ensures out + Directories(pending + [rel]) + below == out + Directories(pending) + ([DirectoryItem(rel)] + below)
  {
    assert Directories(pending + [rel]) == Directories(pending) + [DirectoryItem(rel)];
  }

  lemma JoinIsBelow(rel: string, name: string)
    requires rel != ""
    ensures Join(rel, name) != OUTSIDE_NAME
  {
    assert Join(rel, name)[|rel|] == '/';
    assert '/' !in OUTSIDE_NAME;
  }

  /** One more entry moved from what is left to what is done. */
  lemma NextItems(c: Config, rel: string, names: seq<Named<Node>>, i: nat, parent: Node, done: seq<Item>)
    requires i < |names| && forall e :: e in names ==> e.item < parent
    ensures done + ItemsOf(c, true, rel, names[i..], parent)
      == done + Items(c, true, Join(rel, names[i].name), names[i].item) + ItemsOf(c, true, rel, names[i + 1..], parent)
  {
    var left := names[i..];
    assert left[0] == names[i] && left[1..] == names[i + 1..];
    Regroup(done, Items(c, true, Join(rel, names[i].name), names[i].item), ItemsOf(c, true, rel, names[i + 1..], parent));
  }

  lemma NextSkipped(c: Config, rel: string, names: seq<Named<Node>>, i: nat, parent: Node)
    requires i < |names| && forall e :: e in names ==> e.item < parent
    ensures SkippedOf(c, rel, names[i..], parent)
      == Skipped(c, Join(rel, names[i].name), names[i].item) + SkippedOf(c, rel, names[i + 1..], parent)
  {
    var left := names[i..];
    assert left[0] == names[i] && left[1..] == names[i + 1..];
  }

  /** An entry as a walk of `rel` meets it. */
  ghost predicate ChildOf(c: Config, rel: string, entry: Named<Node>) {
    && WellNamed(entry.item) && entry.name != ""
    && (c.outside.Some? && rel == "" && entry.name == OUTSIDE_NAME ==> entry.item == File(c.outside.value))
  }

  class Packer {
    const config: Config
    var out: seq<Item>
    var pending: seq<string>
    var entries: nat
    var bytes: nat
    var excluded: nat

    ghost predicate Valid()
      reads this
    {
      entries == |out| && bytes == TotalBytes(out)
    }

    constructor (config: Config)
      ensures Valid() && this.config == config
      ensures out == [] && pending == [] && excluded == 0
    {
      this.config := config;
      out, pending, entries, bytes, excluded := [], [], 0, 0, 0;
    }

    /** Appends one item and counts it. */
    method Append(item: Item)
      requires Valid()
      modifies this`out, this`entries, this`bytes
      ensures Valid() && out == old(out) + [item]
    {
      BytesAppend(out, [item]);
      out := out + [item];
      entries := entries + 1;
      bytes := bytes + (if item.FileItem? then item.size else 0);
    }

    /** `flush_pending`: the excluded directories the walk is in, now that something below them is in. */
    method FlushPending()
      requires Valid()
      modifies this`out, this`entries, this`bytes, this`pending
      ensures Valid() && out == old(out) + Directories(old(pending)) && pending == []
    {
      var taken := pending;
      pending := [];
      for i := 0 to |taken|
        invariant Valid() && pending == []
        invariant out == old(out) + Directories(taken[..i])
      {
        Append(DirectoryItem(taken[i]));
        assert Directories(taken[..i + 1]) == Directories(taken[..i]) + [DirectoryItem(taken[i])];
      }
      assert taken[..|taken|] == taken;
    }

    /** `entry`: one node, looked at only as far as the rules demand. */
    method Entry(rel: string, node: Node)
      requires Valid() && WellNamed(node) && rel != "" && !(config.outside.Some? && rel == OUTSIDE_NAME)
      modifies this`out, this`entries, this`bytes, this`pending, this`excluded
      ensures Valid()
      ensures Advanced(old(out), old(pending), out, pending, Items(config, true, rel, node))
      ensures excluded == old(excluded) + Skipped(config, rel, node)
      decreases node, 0, 3
    {
      var isExcluded := rel !in config.always;
      if isExcluded {
        isExcluded := Excludes(config.engine, config.rules, rel);
      }
      if isExcluded {
        var enter := MayIncludeBelow(config.rules, rel)
          || exists i :: 0 <= i < |config.always| && rel + "/" <= config.always[i];
        if enter && node.Directory? {
          Speculate(rel, node);
        } else {
          excluded := excluded + 1;
        }
        return;
      }
      if !node.Special? {
        Include(rel, node);
      }
    }

    /** `entry` for a node that goes in. */
    method Include(rel: string, node: Node)
      requires Valid() && WellNamed(node) && rel != "" && Included(config, rel) && !node.Special?
      modifies this`out, this`entries, this`bytes, this`pending, this`excluded
      ensures Valid()
      ensures Advanced(old(out), old(pending), out, pending, Items(config, true, rel, node))
      ensures excluded == old(excluded) + Skipped(config, rel, node)
      decreases node, 0, 2
    {
      FlushPending();
      Append(ItemOf(rel, node));
      if node.Directory? {
        ghost var out1 := out;
        Walk(rel, node.entries, node);
        AdvancedTwice(old(out), old(pending), [ItemOf(rel, node)], out1, [],
                      ItemsOf(config, true, rel, Sort(node.entries), node), out, pending);
      }
    }

    /** `entry` for an excluded directory: its header waits until something below it is in. */
    method Speculate(rel: string, node: Node)
      requires Valid() && WellNamed(node) && rel != "" && node.Directory?
      requires !Included(config, rel) && Enters(config, rel)
      modifies this`out, this`entries, this`bytes, this`pending, this`excluded
      ensures Valid()
      ensures Advanced(old(out), old(pending), out, pending, Items(config, true, rel, node))
      ensures excluded == old(excluded) + Skipped(config, rel, node)
      decreases node, 0, 2
    {
      ghost var below := ItemsOf(config, true, rel, Sort(node.entries), node);
      pending := pending + [rel];
      var depth := |pending|;
      Walk(rel, node.entries, node);
      if |pending| == depth {
        assert pending == old(pending) + [rel];
        pending := pending[..depth - 1];
        excluded := excluded + 1;
      } else {
        SpeculatedDirectory(old(out), old(pending), rel, below);
      }
    }

    /** `walk`: what a directory holds, in the byte order of the names. */
    method Walk(rel: string, listed: seq<Named<Node>>, ghost parent: Node)
      requires Valid() && WellNamedEntries(listed)
      requires forall e :: e in Effective(config, rel, listed) ==> e.item < parent
      modifies this`out, this`entries, this`bytes, this`pending, this`excluded
      ensures Valid()
      ensures Advanced(old(out), old(pending), out, pending,
                       ItemsOf(config, true, rel, Sort(Effective(config, rel, listed)), parent))
      ensures excluded == old(excluded) + SkippedOf(config, rel, Sort(Effective(config, rel, listed)), parent)
      decreases parent, 0, 1
    {
      var names := Sort(Effective(config, rel, listed));
      WalkSorted(rel, names, parent);
    }

    /** The loop of `walk`. */
    method WalkSorted(rel: string, names: seq<Named<Node>>, ghost parent: Node)
      requires Valid() && forall e :: e in names ==> e.item < parent
      requires forall e :: e in names ==> ChildOf(config, rel, e)
      modifies this`out, this`entries, this`bytes, this`pending, this`excluded
      ensures Valid()
      ensures Advanced(old(out), old(pending), out, pending, ItemsOf(config, true, rel, names, parent))
      ensures excluded == old(excluded) + SkippedOf(config, rel, names, parent)
      decreases parent, 0, 0, 1
    {
      ghost var done: seq<Item> := [];
      for i := 0 to |names|
        invariant Valid()
        invariant Advanced(old(out), old(pending), out, pending, done)
        invariant done + ItemsOf(config, true, rel, names[i..], parent) == ItemsOf(config, true, rel, names, parent)
        invariant excluded + SkippedOf(config, rel, names[i..], parent)
          == old(excluded) + SkippedOf(config, rel, names, parent)
      {
        ghost var out1, pending1 := out, pending;
        ghost var items := Items(config, true, Join(rel, names[i].name), names[i].item);
        NextItems(config, rel, names, i, parent, done);
        NextSkipped(config, rel, names, i, parent);
        Child(rel, names[i], parent);
        AdvancedTwice(old(out), old(pending), done, out1, pending1, items, out, pending);
        done := done + items;
      }
      assert names[|names|..] == [];
    }

    /** One name of the loop of `walk`. */
    method Child(rel: string, entry: Named<Node>, ghost parent: Node)
      requires Valid() && ChildOf(config, rel, entry) && entry.item < parent
      modifies this`out, this`entries, this`bytes, this`pending, this`excluded
      ensures Valid()
      ensures Advanced(old(out), old(pending), out, pending, Items(config, true, Join(rel, entry.name), entry.item))
      ensures excluded == old(excluded) + Skipped(config, Join(rel, entry.name), entry.item)
      decreases parent, 0, 0, 0
    {
      if config.outside.Some? && rel == "" && entry.name == OUTSIDE_NAME {
        FlushPending();
        Append(FileItem(entry.name, config.outside.value));
      } else {
        if rel != "" { JoinIsBelow(rel, entry.name); }
        Entry(Join(rel, entry.name), entry.item);
      }
    }
  }

  /** The entries a walk of `rel` sees. */
  function Effective(c: Config, rel: string, entries: seq<Named<Node>>): seq<Named<Node>> {
    if rel == "" then RootEntries(c, entries) else entries
  }

  // ------------------------------------------------------ pruning is harmless

  /** What a walk may rely on to prune: compiled rules, and no stray exception. */
  predicate Prunable(c: Config) {
    CompiledRules(c.rules) && NoStrayException(c.rules)
  }

  /** Nothing below `d` is included: neither `d`, not included itself, nor anything below it goes in. */
  lemma {:induction false} NothingBelow(c: Config, d: string, rel: string, node: Node)
    requires d != "" && rel != "" && WellNamed(node)
    requires forall path :: d + "/" <= path ==> !Included(c, path)
    requires !Included(c, rel) && (rel == d || d + "/" <= rel)
    ensures Items(c, false, rel, node) == []
    decreases node, 0
  {
    if node.Directory? {
      NothingBelowOf(c, d, rel, Sort(node.entries), node);
    }
  }

  lemma {:induction false} NothingBelowOf(c: Config, d: string, rel: string, entries: seq<Named<Node>>, parent: Node)
    requires d != "" && rel != "" && WellNamedEntries(entries) && forall e :: e in entries ==> e.item < parent
    requires forall path :: d + "/" <= path ==> !Included(c, path)
    requires rel == d || d + "/" <= rel
    ensures ItemsOf(c, false, rel, entries, parent) == []
    decreases parent, 0, |entries|
  {
    if entries != [] {
      var child := Join(rel, entries[0].name);
      assert d + "/" <= child;
      assert entries[0] in entries;
      NothingBelow(c, d, child, entries[0].item);
      NothingBelowOf(c, d, rel, entries[1..], parent);
    }
  }

  lemma NothingIncludedBelow(c: Config, rel: string)
    requires Prunable(c) && !Included(c, rel) && !Enters(c, rel)
    ensures forall path :: rel + "/" <= path ==> !Included(c, path)
  {
    forall path | rel + "/" <= path ensures !Included(c, path) {
      NotIncludedBelow(c, rel, path);
    }
  }

  lemma NotIncludedBelow(c: Config, rel: string, path: string)
    requires Prunable(c) && !Included(c, rel) && !Enters(c, rel) && rel + "/" <= path
    ensures !Included(c, path)
  {
    RulesDecideBelow(c, rel, path);
    PruningSound(c.engine, c.rules, rel, path);
  }

  /** Below a directory the walk need not enter, only the rules can include something. */
  lemma RulesDecideBelow(c: Config, rel: string, path: string)
    requires !Enters(c, rel) && rel + "/" <= path
    ensures Included(c, path) <==> !Excluded(c.engine, c.rules, path)
    ensures !MayIncludeBelow(c.rules, rel)
  {
    assert path[|rel|] == '/' && '/' !in OUTSIDE_NAME;
  }

  lemma {:induction false} PrunedItems(c: Config, rel: string, node: Node)
    requires Prunable(c) && rel != "" && WellNamed(node)
    ensures Items(c, true, rel, node) == Items(c, false, rel, node)
    decreases node, 0
  {
    if !Included(c, rel) && !Enters(c, rel) {
      NothingIncludedBelow(c, rel);
      NothingBelow(c, rel, rel, node);
    } else if node.Directory? {
      PrunedItemsOf(c, rel, Sort(node.entries), node);
    }
  }

  lemma {:induction false} PrunedItemsOf(c: Config, rel: string, entries: seq<Named<Node>>, parent: Node)
    requires Prunable(c) && WellNamedEntries(entries) && forall e :: e in entries ==> e.item < parent
    ensures ItemsOf(c, true, rel, entries, parent) == ItemsOf(c, false, rel, entries, parent)
    decreases parent, 0, |entries|
  {
    if entries != [] {
      assert entries[0] in entries;
      PrunedItems(c, Join(rel, entries[0].name), entries[0].item);
      PrunedItemsOf(c, rel, entries[1..], parent);
    }
  }

  // ------------------------------------------------------ the filtered preorder

  datatype Found = Found(path: string, node: Node)

  /** Every node of the tree, a directory before what it holds, siblings by name. */
  ghost function Preorder(rel: string, node: Node): seq<Found>
    decreases node, 0
  {
    [Found(rel, node)] + (if node.Directory? then PreorderOf(rel, Sort(node.entries), node) else [])
  }

  ghost function PreorderOf(rel: string, entries: seq<Named<Node>>, parent: Node): seq<Found>
    requires forall e :: e in entries ==> e.item < parent
    decreases parent, 0, |entries|
  {
    if entries == [] then []
    else Preorder(Join(rel, entries[0].name), entries[0].item) + PreorderOf(rel, entries[1..], parent)
  }

  /** Neither special nor excluded. */
  ghost predicate Wanted(c: Config, found: Found) {
    !found.node.Special? && Included(c, found.path)
  }

  /** A node is kept when it is wanted, or a directory with something wanted below it. */
  ghost predicate Kept(c: Config, found: Found) {
    Wanted(c, found) ||
    (found.node.Directory? &&
     exists below :: below in PreorderOf(found.path, Sort(found.node.entries), found.node) && Wanted(c, below))
  }

  /** The kept ones of a list, in its order. */
  ghost function KeptItems(c: Config, all: seq<Found>): seq<Item> {
    if all == [] then []
    else (if Kept(c, all[0]) then [ItemOf(all[0].path, all[0].node)] else []) + KeptItems(c, all[1..])
  }

  lemma {:induction false} KeptItemsAppend(c: Config, a: seq<Found>, b: seq<Found>)
    ensures KeptItems(c, a + b) == KeptItems(c, a) + KeptItems(c, b)
  {
    if a == [] {
      assert a + b == b;
    } else {
      assert (a + b)[1..] == a[1..] + b;
      KeptItemsAppend(c, a[1..], b);
    }
  }

  /** Without pruning the walk is the filter; and it keeps nothing just when nothing is wanted. */
  lemma {:induction false} ItemsAreKept(c: Config, rel: string, node: Node)
    ensures Items(c, false, rel, node) == KeptItems(c, Preorder(rel, node))
    ensures Items(c, false, rel, node) == [] <==> forall f :: f in Preorder(rel, node) ==> !Wanted(c, f)
    decreases node, 0
  {
    var self := Found(rel, node);
    if node.Directory? {
      var below := PreorderOf(rel, Sort(node.entries), node);
      ItemsOfAreKept(c, rel, Sort(node.entries), node);
      KeptItemsAppend(c, [self], below);
      assert KeptItems(c, [self]) == if Kept(c, self) then [DirectoryItem(rel)] else [];
    } else {
      assert Preorder(rel, node) == [self];
    }
    assert self in Preorder(rel, node);
  }

  lemma {:induction false} ItemsOfAreKept(c: Config, rel: string, entries: seq<Named<Node>>, parent: Node)
    requires forall e :: e in entries ==> e.item < parent
    ensures ItemsOf(c, false, rel, entries, parent) == KeptItems(c, PreorderOf(rel, entries, parent))
    ensures ItemsOf(c, false, rel, entries, parent) == []
      <==> forall f :: f in PreorderOf(rel, entries, parent) ==> !Wanted(c, f)
    decreases parent, 0, |entries|
  {
    if entries != [] {
      var child := Join(rel, entries[0].name);
      ItemsAreKept(c, child, entries[0].item);
      ItemsOfAreKept(c, rel, entries[1..], parent);
      KeptItemsAppend(c, Preorder(child, entries[0].item), PreorderOf(rel, entries[1..], parent));
    }
  }

  /** The tree a walk sees from its root. */
  ghost function Root(c: Config, listed: seq<Named<Node>>): Node {
    Directory(RootEntries(c, listed))
  }

  /** The whole context, from the entries of its root. */
  ghost function Everything(c: Config, listed: seq<Named<Node>>): seq<Found> {
    PreorderOf("", Sort(RootEntries(c, listed)), Root(c, listed))
  }

  lemma RootWellNamed(c: Config, listed: seq<Named<Node>>)
    requires WellNamedEntries(listed)
    ensures WellNamedEntries(Sort(RootEntries(c, listed)))
    ensures forall e :: e in Sort(RootEntries(c, listed)) ==> e.item < Root(c, listed)
  {
    forall e | e in Sort(RootEntries(c, listed))
      ensures e.name != "" && '/' !in e.name && WellNamed(e.item) && e.item < Root(c, listed)
    {
      assert e in RootEntries(c, listed);
      RootEntryWellNamed(c, listed, e);
    }
  }

  lemma RootEntryWellNamed(c: Config, listed: seq<Named<Node>>, e: Named<Node>)
    requires WellNamedEntries(listed) && e in RootEntries(c, listed)
    ensures e.name != "" && '/' !in e.name && WellNamed(e.item)
  {
    assert e in listed || e == Named(OUTSIDE_NAME, File(c.outside.value));
  }

  // ------------------------------------------------ exactly when pruning loses

  /** A node the walk does not look into, with something wanted at or below it. */
  ghost predicate LosesAt(c: Config, found: Found) {
    && !Included(c, found.path) && !Enters(c, found.path)
    && exists below :: below in Preorder(found.path, found.node) && Wanted(c, below)
  }

  ghost predicate LosesNothing(c: Config, all: seq<Found>) {
    forall found :: found in all ==> !LosesAt(c, found)
  }

  /** Pruning never adds anything, and takes nothing away exactly where nothing is lost. */
  lemma {:induction false} PrunedExactly(c: Config, rel: string, node: Node)
    ensures |Items(c, true, rel, node)| <= |Items(c, false, rel, node)|
    ensures |Items(c, true, rel, node)| == |Items(c, false, rel, node)| ==> Items(c, true, rel, node) == Items(c, false, rel, node)
    ensures Items(c, true, rel, node) == Items(c, false, rel, node) <==> LosesNothing(c, Preorder(rel, node))
    decreases node, 0
  {
    var self := Found(rel, node);
    assert self in Preorder(rel, node);
    if !Included(c, rel) && !Enters(c, rel) {
      PrunedHere(c, rel, node);
    } else if node.Directory? {
      PrunedExactlyOf(c, rel, Sort(node.entries), node);
      Wrapped(Included(c, rel), DirectoryItem(rel), ItemsOf(c, true, rel, Sort(node.entries), node),
              ItemsOf(c, false, rel, Sort(node.entries), node));
      LosesBelow(c, self, PreorderOf(rel, Sort(node.entries), node));
    }
  }

  /** A directory's header changes nothing of the comparison. */
  lemma Wrapped(always: bool, item: Item, a: seq<Item>, b: seq<Item>)
    requires |a| <= |b| && (|a| == |b| ==> a == b)
    ensures |Wrap(always, item, a)| <= |Wrap(always, item, b)|
    ensures |Wrap(always, item, a)| == |Wrap(always, item, b)| ==> Wrap(always, item, a) == Wrap(always, item, b)
    ensures Wrap(always, item, a) == Wrap(always, item, b) <==> a == b
  {
  }

  lemma LosesBelow(c: Config, self: Found, below: seq<Found>)
    requires Included(c, self.path) || Enters(c, self.path)
    ensures LosesNothing(c, [self] + below) <==> LosesNothing(c, below)
  {
    assert forall found :: found in [self] + below <==> found == self || found in below;
  }

  /** Where the walk does not look, it loses exactly what is wanted. */
  lemma PrunedHere(c: Config, rel: string, node: Node)
    requires !Included(c, rel) && !Enters(c, rel)
    ensures Items(c, false, rel, node) == [] <==> LosesNothing(c, Preorder(rel, node))
  {
    ItemsAreKept(c, rel, node);
    assert Found(rel, node) in Preorder(rel, node);
    if Items(c, false, rel, node) == [] {
      forall found | found in Preorder(rel, node) ensures !LosesAt(c, found) {
        PreorderBelow(rel, node, found);
      }
    }
  }

  /** What is below something below is below. */
  lemma {:induction false} PreorderBelow(rel: string, node: Node, found: Found)
    requires found in Preorder(rel, node)
    ensures forall g :: g in Preorder(found.path, found.node) ==> g in Preorder(rel, node)
    decreases node, 0
  {
    if found != Found(rel, node) {
      PreorderBelowOf(rel, Sort(node.entries), node, found);
    }
  }

  lemma {:induction false} PreorderBelowOf(rel: string, entries: seq<Named<Node>>, parent: Node, found: Found)
    requires (forall e :: e in entries ==> e.item < parent) && found in PreorderOf(rel, entries, parent)
    ensures forall g :: g in Preorder(found.path, found.node) ==> g in PreorderOf(rel, entries, parent)
    decreases parent, 0, |entries|
  {
    var child := Join(rel, entries[0].name);
    if found in Preorder(child, entries[0].item) {
      PreorderBelow(child, entries[0].item, found);
    } else {
      PreorderBelowOf(rel, entries[1..], parent, found);
    }
  }

  lemma {:induction false} PrunedExactlyOf(c: Config, rel: string, entries: seq<Named<Node>>, parent: Node)
    requires forall e :: e in entries ==> e.item < parent
    ensures |ItemsOf(c, true, rel, entries, parent)| <= |ItemsOf(c, false, rel, entries, parent)|
    ensures |ItemsOf(c, true, rel, entries, parent)| == |ItemsOf(c, false, rel, entries, parent)|
      ==> ItemsOf(c, true, rel, entries, parent) == ItemsOf(c, false, rel, entries, parent)
    ensures ItemsOf(c, true, rel, entries, parent) == ItemsOf(c, false, rel, entries, parent)
      <==> LosesNothing(c, PreorderOf(rel, entries, parent))
    decreases parent, 0, |entries|
  {
    if entries != [] {
      var child, node := Join(rel, entries[0].name), entries[0].item;
      PrunedExactly(c, child, node);
      PrunedExactlyOf(c, rel, entries[1..], parent);
    }
  }

  /** The pruned walk of a context meets exactly what is kept of it if and only if it loses nothing of it. */
  lemma WalkIsKept(c: Config, listed: seq<Named<Node>>)
    ensures ItemsOf(c, true, "", Sort(RootEntries(c, listed)), Root(c, listed)) == KeptItems(c, Everything(c, listed))
      <==> LosesNothing(c, Everything(c, listed))
  {
    PrunedExactlyOf(c, "", Sort(RootEntries(c, listed)), Root(c, listed));
    ItemsOfAreKept(c, "", Sort(RootEntries(c, listed)), Root(c, listed));
  }

  /** Without a stray exception it loses nothing. */
  lemma PrunableLosesNothing(c: Config, listed: seq<Named<Node>>)
    requires Prunable(c) && WellNamedEntries(listed)
    ensures LosesNothing(c, Everything(c, listed))
  {
    RootWellNamed(c, listed);
    PrunedItemsOf(c, "", Sort(RootEntries(c, listed)), Root(c, listed));
    PrunedExactlyOf(c, "", Sort(RootEntries(c, listed)), Root(c, listed));
  }

  lemma {:induction false} PreorderPaths(rel: string, node: Node, found: Found)
    requires rel != "" && found in Preorder(rel, node)
    ensures found == Found(rel, node) || rel + "/" <= found.path
    decreases node, 0
  {
    if found != Found(rel, node) {
      PreorderPathsOf(rel, Sort(node.entries), node, found);
    }
  }

  lemma {:induction false} PreorderPathsOf(rel: string, entries: seq<Named<Node>>, parent: Node, found: Found)
    requires rel != "" && (forall e :: e in entries ==> e.item < parent) && found in PreorderOf(rel, entries, parent)
    ensures rel + "/" <= found.path
    decreases parent, 0, |entries|
  {
    var child := Join(rel, entries[0].name);
    if found in Preorder(child, entries[0].item) {
      PreorderPaths(child, entries[0].item, found);
      assert rel + "/" <= child;
    } else {
      PreorderPathsOf(rel, entries[1..], parent, found);
    }
  }

  /** Whatever is lost below a node, a stray exception had the last word on. */
  lemma LostToStray(c: Config, found: Found, below: Found)
    requires CompiledRules(c.rules) && found.path != "" && LosesAt(c, found)
    requires below in Preorder(found.path, found.node) && Wanted(c, below)
    ensures exists l: nat :: StrayDecides(c.engine, c.rules, l, below.path)
  {
    PreorderPaths(found.path, found.node, below);
    RulesDecideBelow(c, found.path, below.path);
    var l := WrongWord(c.engine, c.rules, found.path, below.path);
  }

  // The archive that a stray exception spoils: with the rules `d` and
  // `!^d/*`, the context of one directory `d` with one file is packed as
  // nothing, although the directory and the file are to be kept.
  lemma StrayExceptionLosesFile(engine: Engine, d: string, name: string, size: nat)
    requires d != "" && '/' !in d && '^' !in d && Plain(d, 0, |d|) && name != "" && '/' !in name
    ensures var exception := Pattern(['^'] + d + "/*", true, KindOf(['^'] + d + "/*"));
      var c := Config(engine, [Pattern(d, false, KindOf(d))] + [exception], [], None);
      var listed := [Named(d, Directory([Named(name, File(size))]))];
      && ItemsOf(c, true, "", Sort(RootEntries(c, listed)), Root(c, listed)) == []
      && KeptItems(c, Everything(c, listed)) == [DirectoryItem(d), FileItem(d + "/" + name, size)]
  {
    var exception := Pattern(['^'] + d + "/*", true, KindOf(['^'] + d + "/*"));
    var c := Config(engine, [Pattern(d, false, KindOf(d))] + [exception], [], None);
    AnchoredExceptionIsPruned(engine, d, name);
    OneFileTree(c, d, name, size);
  }

  lemma OneFileTree(c: Config, d: string, name: string, size: nat)
    requires c.outside.None? && d != "" && name != ""
    requires !Included(c, d) && !Enters(c, d) && Included(c, d + "/" + name)
    ensures var listed := [Named(d, Directory([Named(name, File(size))]))];
      && ItemsOf(c, true, "", Sort(RootEntries(c, listed)), Root(c, listed)) == []
      && KeptItems(c, Everything(c, listed)) == [DirectoryItem(d), FileItem(d + "/" + name, size)]
  {
    var file := Named(name, File(size));
    var directory := Directory([file]);
    var listed := [Named(d, directory)];
    SortOne(file);
    SortOne(listed[0]);
    ItemsOfAreKept(c, "", listed, Root(c, listed));
    assert Items(c, false, Join(d, name), File(size)) == [FileItem(d + "/" + name, size)];
    assert [file][1..] == [] && listed[1..] == [];
    assert ItemsOf(c, false, d, [file], directory) == [FileItem(d + "/" + name, size)];
    assert Items(c, false, d, directory) == [DirectoryItem(d), FileItem(d + "/" + name, size)];
  }

  lemma SortOne(entry: Named<Node>)
    ensures Sort([entry]) == [entry]
  {
    assert [entry][1..] == [];
  }

  // --------------------------------------------------- the shape of an archive

  predicate AtOrBelow(rel: string, path: string) { path == rel || rel + "/" <= path }

  /** The path up to its last `/`; nothing for a name in the root. */
  function ParentOf(path: string): string {
    if path == "" then ""
    else if path[|path| - 1] == '/' then path[..|path| - 1]
    else ParentOf(path[..|path| - 1])
  }

  lemma {:induction false} ParentOfJoin(rel: string, name: string)
    requires '/' !in name
    ensures ParentOf(Join(rel, name)) == rel
  {
    var path := Join(rel, name);
    if name == "" {
      if rel != "" { assert path[..|path| - 1] == rel; }
    } else {
      var shorter := name[..|name| - 1];
      ParentOfJoin(rel, shorter);
      assert path[..|path| - 1] == Join(rel, shorter);
      assert path[|path| - 1] == name[|name| - 1];
    }
  }

  ghost predicate DistinctPaths(items: seq<Item>) {
    forall i, j :: 0 <= i < j < |items| ==> items[i].path != items[j].path
  }

  /** Each item is in `dir`, or in a directory that comes before it. */
  ghost predicate ParentsFirst(dir: string, items: seq<Item>) {
    forall k :: 0 <= k < |items| ==>
      ParentOf(items[k].path) == dir || DirectoryItem(ParentOf(items[k].path)) in items[..k]
  }

  /** The name a path goes on with. */
  function FirstName(s: string): string {
    if s == "" || s[0] == '/' then "" else [s[0]] + FirstName(s[1..])
  }

  lemma {:induction false} FirstNameIs(name: string, s: string)
    requires '/' !in name && name <= s && (|s| == |name| || s[|name|] == '/')
    ensures FirstName(s) == name
  {
    if name != "" {
      FirstNameIs(name[1..], s[1..]);
    }
  }

  /** A path is at or below one sibling only. */
  lemma SiblingOf(rel: string, name: string, path: string)
    requires '/' !in name && AtOrBelow(Join(rel, name), path)
    ensures var n := if rel == "" then 0 else |rel| + 1; n <= |path| && FirstName(path[n..]) == name
  {
    var n := if rel == "" then 0 else |rel| + 1;
    assert Join(rel, name)[n..] == name;
    assert name == path[n..n + |name|];
    FirstNameIs(name, path[n..]);
  }

  lemma {:induction false} ItemPaths(c: Config, prune: bool, rel: string, node: Node)
    requires rel != "" && WellNamed(node)
    ensures forall item :: item in Items(c, prune, rel, node) ==> AtOrBelow(rel, item.path)
    decreases node, 0
  {
    if node.Directory? {
      ItemPathsOf(c, prune, rel, Sort(node.entries), node);
    }
  }

  lemma {:induction false} ItemPathsOf(c: Config, prune: bool, rel: string, entries: seq<Named<Node>>, parent: Node)
    requires WellNamedEntries(entries) && forall e :: e in entries ==> e.item < parent
    ensures forall item :: item in ItemsOf(c, prune, rel, entries, parent) ==>
      exists e :: e in entries && AtOrBelow(Join(rel, e.name), item.path)
    decreases parent, 0, |entries|
  {
    if entries != [] {
      assert entries[0] in entries;
      ItemPaths(c, prune, Join(rel, entries[0].name), entries[0].item);
      ItemPathsOf(c, prune, rel, entries[1..], parent);
    }
  }

  /** No path is in the archive twice, whatever the rules. */
  lemma {:induction false} ItemsDistinct(c: Config, prune: bool, rel: string, node: Node)
    requires rel != "" && WellNamed(node)
    ensures DistinctPaths(Items(c, prune, rel, node))
    decreases node, 0
  {
    if node.Directory? {
      var below := ItemsOf(c, prune, rel, Sort(node.entries), node);
      SortDistinct(node.entries);
      ItemsOfDistinct(c, prune, rel, Sort(node.entries), node);
      ItemsBelow(c, prune, rel, Sort(node.entries), node);
      DistinctUnder(rel, below);
    }
  }

  lemma ItemsBelow(c: Config, prune: bool, rel: string, entries: seq<Named<Node>>, parent: Node)
    requires rel != "" && WellNamedEntries(entries) && forall e :: e in entries ==> e.item < parent
    ensures forall item :: item in ItemsOf(c, prune, rel, entries, parent) ==> rel + "/" <= item.path
  {
    ItemPathsOf(c, prune, rel, entries, parent);
  }

  lemma DistinctUnder(rel: string, below: seq<Item>)
    requires DistinctPaths(below) && forall item :: item in below ==> rel + "/" <= item.path
    ensures DistinctPaths([DirectoryItem(rel)] + below)
  {
    assert forall k :: 0 <= k < |below| ==> below[k] in below;
  }

  lemma {:induction false} ItemsOfDistinct(c: Config, prune: bool, rel: string, entries: seq<Named<Node>>, parent: Node)
    requires WellNamedEntries(entries) && DistinctNames(entries) && forall e :: e in entries ==> e.item < parent
    ensures DistinctPaths(ItemsOf(c, prune, rel, entries, parent))
    decreases parent, 0, |entries|
  {
    if entries != [] {
      var e := entries[0];
      assert e in entries;
      var child := Join(rel, e.name);
      ItemsDistinct(c, prune, child, e.item);
      ItemsOfDistinct(c, prune, rel, entries[1..], parent);
      ItemPaths(c, prune, child, e.item);
      ItemPathsOf(c, prune, rel, entries[1..], parent);
      var head, tail := Items(c, prune, child, e.item), ItemsOf(c, prune, rel, entries[1..], parent);
      forall i, j | 0 <= i < |head| && 0 <= j < |tail| ensures head[i].path != tail[j].path {
        assert head[i] in head && tail[j] in tail;
        var other :| other in entries[1..] && AtOrBelow(Join(rel, other.name), tail[j].path);
        SiblingOf(rel, other.name, tail[j].path);
        SiblingOf(rel, e.name, head[i].path);
      }
    }
  }

  lemma ParentsFirstAppend(dir: string, a: seq<Item>, b: seq<Item>)
    requires ParentsFirst(dir, a) && ParentsFirst(dir, b)
    ensures ParentsFirst(dir, a + b)
  {
    var all := a + b;
    forall k | 0 <= k < |all|
      ensures ParentOf(all[k].path) == dir || DirectoryItem(ParentOf(all[k].path)) in all[..k]
    {
      if k < |a| {
        assert all[k] == a[k] && all[..k] == a[..k];
      } else {
        assert all[k] == b[k - |a|] && all[..k] == a + b[..k - |a|];
      }
    }
  }

  lemma ParentsFirstUnder(dir: string, rel: string, below: seq<Item>)
    requires ParentOf(rel) == dir && ParentsFirst(rel, below)
    ensures ParentsFirst(dir, [DirectoryItem(rel)] + below)
  {
    var all := [DirectoryItem(rel)] + below;
    forall k | 0 < k < |all| ensures DirectoryItem(ParentOf(all[k].path)) in all[..k] {
      ParentUnder(rel, below, k);
    }
  }

  lemma ParentUnder(rel: string, below: seq<Item>, k: nat)
    requires ParentsFirst(rel, below) && 0 < k <= |below|
    ensures var all := [DirectoryItem(rel)] + below; DirectoryItem(ParentOf(all[k].path)) in all[..k]
  {
    var all := [DirectoryItem(rel)] + below;
    assert all[k] == below[k - 1] && all[..k] == [DirectoryItem(rel)] + below[..k - 1];
  }

  /** Every directory comes before what it holds, whatever the rules. */
  lemma {:induction false} ItemsParentsFirst(c: Config, prune: bool, dir: string, rel: string, node: Node)
    requires rel != "" && WellNamed(node) && ParentOf(rel) == dir
    ensures ParentsFirst(dir, Items(c, prune, rel, node))
    decreases node, 0
  {
    if node.Directory? {
      ItemsOfParentsFirst(c, prune, rel, Sort(node.entries), node);
      ParentsFirstUnder(dir, rel, ItemsOf(c, prune, rel, Sort(node.entries), node));
    }
  }

  lemma {:induction false} ItemsOfParentsFirst(c: Config, prune: bool, rel: string, entries: seq<Named<Node>>, parent: Node)
    requires WellNamedEntries(entries) && forall e :: e in entries ==> e.item < parent
    ensures ParentsFirst(rel, ItemsOf(c, prune, rel, entries, parent))
    decreases parent, 0, |entries|
  {
    if entries != [] {
      var e := entries[0];
      assert e in entries;
      var child := Join(rel, e.name);
      ParentOfJoin(rel, e.name);
      ItemsParentsFirst(c, prune, rel, child, e.item);
      ItemsOfParentsFirst(c, prune, rel, entries[1..], parent);
      ParentsFirstAppend(rel, Items(c, prune, child, e.item), ItemsOf(c, prune, rel, entries[1..], parent));
    }
  }

  // -------------------------------------------------------------------- pack

  lemma RootDistinct(c: Config, listed: seq<Named<Node>>)
    requires DistinctNames(listed)
    ensures DistinctNames(RootEntries(c, listed))
  {
    if c.outside.Some? {
      var others := Without(listed, OUTSIDE_NAME);
      assert forall i :: 0 <= i < |others| ==> others[i] in others;
    }
  }

  /** Nothing is packed twice, and nothing before its directory. */
  lemma ArchiveShape(c: Config, listed: seq<Named<Node>>)
    requires WellNamedEntries(listed) && DistinctNames(listed)
    ensures var archive := ItemsOf(c, true, "", Sort(RootEntries(c, listed)), Root(c, listed));
      DistinctPaths(archive) && ParentsFirst("", archive)
  {
    var entries := RootEntries(c, listed);
    RootWellNamed(c, listed);
    RootDistinct(c, listed);
    SortDistinct(entries);
    ItemsOfDistinct(c, true, "", Sort(entries), Root(c, listed));
    ItemsOfParentsFirst(c, true, "", Sort(entries), Root(c, listed));
  }

  // ------------------------------------------------------- in byte order

  /** A directory comes before what it holds, and of two names in a directory the smaller, with what it holds, first. */
  ghost predicate PathBefore(a: string, b: string) {
    || a + "/" <= b
    || exists dir, x, y :: Siblings(dir, x, a, y, b)
  }

  ghost predicate Siblings(dir: string, x: string, a: string, y: string, b: string) {
    Precedes(x, y) && AtOrBelow(Join(dir, x), a) && AtOrBelow(Join(dir, y), b)
  }

  ghost predicate InOrder(items: seq<Item>) {
    forall i, j :: 0 <= i < j < |items| ==> PathBefore(items[i].path, items[j].path)
  }

  ghost predicate Ascending(entries: seq<Named<Node>>) {
    forall i, j :: 0 <= i < j < |entries| ==> Precedes(entries[i].name, entries[j].name)
  }

  lemma SortAscends(entries: seq<Named<Node>>)
    requires DistinctNames(entries)
    ensures Ascending(Sort(entries))
  {
    var s := Sort(entries);
    SortSorted(entries);
    SortDistinct(entries);
    forall i, j | 0 <= i < j < |s| ensures Precedes(s[i].name, s[j].name) {
      LessTotal(s[i].name, s[j].name);
      LessIsPrecedes(s[i].name, s[j].name);
    }
  }

  lemma {:induction false} ItemsInOrder(c: Config, prune: bool, rel: string, node: Node)
    requires rel != "" && WellNamed(node)
    ensures InOrder(Items(c, prune, rel, node))
    decreases node, 0
  {
    if node.Directory? {
      SortAscends(node.entries);
      ItemsOfInOrder(c, prune, rel, Sort(node.entries), node);
      ItemsBelow(c, prune, rel, Sort(node.entries), node);
      InOrderUnder(rel, ItemsOf(c, prune, rel, Sort(node.entries), node));
    }
  }

  lemma InOrderUnder(rel: string, below: seq<Item>)
    requires InOrder(below) && forall item :: item in below ==> rel + "/" <= item.path
    ensures InOrder([DirectoryItem(rel)] + below)
  {
    assert forall k :: 0 <= k < |below| ==> below[k] in below;
  }

  lemma {:induction false} ItemsOfInOrder(c: Config, prune: bool, rel: string, entries: seq<Named<Node>>, parent: Node)
    requires WellNamedEntries(entries) && Ascending(entries) && forall e :: e in entries ==> e.item < parent
    ensures InOrder(ItemsOf(c, prune, rel, entries, parent))
    decreases parent, 0, |entries|
  {
    if entries != [] {
      var e := entries[0];
      assert e in entries;
      var first := Items(c, prune, Join(rel, e.name), e.item);
      var more := ItemsOf(c, prune, rel, entries[1..], parent);
      ItemsInOrder(c, prune, Join(rel, e.name), e.item);
      ItemPaths(c, prune, Join(rel, e.name), e.item);
      ItemsOfInOrder(c, prune, rel, entries[1..], parent);
      ItemPathsOf(c, prune, rel, entries[1..], parent);
      forall a, b | a in first && b in more ensures PathBefore(a.path, b.path) {
        var f :| f in entries[1..] && AtOrBelow(Join(rel, f.name), b.path);
        assert Siblings(rel, e.name, a.path, f.name, b.path);
      }
      InOrderJoined(first, more);
    }
  }

  lemma InOrderJoined(first: seq<Item>, more: seq<Item>)
    requires InOrder(first) && InOrder(more) && forall a, b :: a in first && b in more ==> PathBefore(a.path, b.path)
    ensures InOrder(first + more)
  {
    var all := first + more;
    forall i, j | 0 <= i < j < |all| ensures PathBefore(all[i].path, all[j].path) {
      assert all[i] == if i < |first| then first[i] else more[i - |first|];
      assert all[j] == if j < |first| then first[j] else more[j - |first|];
    }
  }

  /** The archive is in byte order, directory by directory. */
  lemma ArchiveInOrder(c: Config, listed: seq<Named<Node>>)
    requires WellNamedEntries(listed) && DistinctNames(listed)
    ensures InOrder(ItemsOf(c, true, "", Sort(RootEntries(c, listed)), Root(c, listed)))
  {
    RootWellNamed(c, listed);
    RootDistinct(c, listed);
    SortAscends(RootEntries(c, listed));
    ItemsOfInOrder(c, true, "", Sort(RootEntries(c, listed)), Root(c, listed));
  }

  // ------------------------------------------------ the archive by the tree

  /** The tree has `node` at `path`, by its names. */
  ghost predicate TreeHas(entries: seq<Named<Node>>, path: string, node: Node)
    decreases entries
  {
    exists e :: e in entries && EntryHas(e, path, node)
  }

  ghost predicate EntryHas(e: Named<Node>, path: string, node: Node)
    decreases e
  {
    || (path == e.name && node == e.item)
    || (e.item.Directory? && e.name + "/" <= path && TreeHas(e.item.entries, path[|e.name| + 1..], node))
  }

  /** The tree that is packed: a Containerfile from outside replaces what has its name. */
  ghost predicate InContext(c: Config, listed: seq<Named<Node>>, path: string, node: Node) {
    if c.outside.Some? && AtOrBelow(OUTSIDE_NAME, path) then path == OUTSIDE_NAME && node == File(c.outside.value)
    else TreeHas(listed, path, node)
  }

  /** The item is the node's: its path, and its size or target. */
  predicate Stands(item: Item, path: string, node: Node) {
    item.path == path &&
    match node
    case File(size) => item.FileItem? && item.size == size
    case Symlink(target) => item.SymlinkItem? && item.target == target
    case Special => false
    case Directory(_) => item.DirectoryItem?
  }

  ghost predicate Packs(archive: seq<Item>, path: string, node: Node) {
    exists item :: item in archive && Stands(item, path, node)
  }

  /** Whether the path is packed whatever the rules say: it is asked for, or is the Containerfile from outside. */
  predicate Asked(c: Config, path: string) {
    path in c.always || (c.outside.Some? && path == OUTSIDE_NAME)
  }

  /** Every item is a node of the context. */
  ghost predicate OnlyNodes(c: Config, listed: seq<Named<Node>>, archive: seq<Item>) {
    forall item :: item in archive ==> exists node :: InContext(c, listed, item.path, node) && Stands(item, item.path, node)
  }

  /** What is asked for is there. */
  ghost predicate HasAsked(c: Config, listed: seq<Named<Node>>, archive: seq<Item>) {
    forall path, node :: InContext(c, listed, path, node) && !node.Special? && Asked(c, path) ==> Packs(archive, path, node)
  }

  /** Everything else is there exactly if no rule excludes it or, for a directory, something below it is there. */
  ghost predicate HasIncluded(c: Config, listed: seq<Named<Node>>, archive: seq<Item>) {
    forall path, node :: InContext(c, listed, path, node) && !node.Special? && !Asked(c, path) ==>
      (Packs(archive, path, node) <==>
        !Excluded(c.engine, c.rules, path) || (node.Directory? && HasBelow(archive, path)))
  }

  // ---- the preorder has the nodes of the tree

  lemma {:induction false} FoundIsEntry(rel: string, e: Named<Node>, found: Found) returns (path: string)
    requires e.name != "" && WellNamed(e.item) && found in Preorder(Join(rel, e.name), e.item)
    ensures found.path == Join(rel, path) && path != "" && EntryHas(e, path, found.node)
    decreases e.item, 0
  {
    var child := Join(rel, e.name);
    if found == Found(child, e.item) {
      path := e.name;
    } else {
      var below := FoundIsInTree(child, Sort(e.item.entries), e.item, found);
      SameTree(Sort(e.item.entries), e.item.entries, below, found.node);
      path := e.name + "/" + below;
      BelowEntry(e, below, found.node);
      JoinJoin(rel, e.name, below);
    }
  }

  lemma BelowEntry(e: Named<Node>, below: string, node: Node)
    requires e.item.Directory? && TreeHas(e.item.entries, below, node)
    ensures EntryHas(e, e.name + "/" + below, node)
  {
    var path := e.name + "/" + below;
    assert path[|e.name| + 1..] == below && e.name + "/" <= path;
  }

  lemma JoinJoin(rel: string, name: string, below: string)
    requires name != ""
    ensures Join(Join(rel, name), below) == Join(rel, name + "/" + below)
  {
  }

  lemma {:induction false} FoundIsInTree(rel: string, entries: seq<Named<Node>>, parent: Node, found: Found) returns (path: string)
    requires WellNamedEntries(entries) && (forall e :: e in entries ==> e.item < parent)
    requires found in PreorderOf(rel, entries, parent)
    ensures found.path == Join(rel, path) && path != "" && TreeHas(entries, path, found.node)
    decreases parent, 0, |entries|
  {
    var e := entries[0];
    assert e in entries;
    if found in Preorder(Join(rel, e.name), e.item) {
      path := FoundIsEntry(rel, e, found);
    } else {
      path := FoundIsInTree(rel, entries[1..], parent, found);
      SmallerTree(entries, path, found.node);
    }
  }

  lemma SmallerTree(entries: seq<Named<Node>>, path: string, node: Node)
    requires entries != [] && TreeHas(entries[1..], path, node)
    ensures TreeHas(entries, path, node)
  {
    var e :| e in entries[1..] && EntryHas(e, path, node);
    assert e in entries;
  }

  lemma SameTree(a: seq<Named<Node>>, b: seq<Named<Node>>, path: string, node: Node)
    requires forall e :: e in a <==> e in b
    ensures TreeHas(a, path, node) <==> TreeHas(b, path, node)
  {
  }

  lemma {:induction false} EntryIsFound(rel: string, e: Named<Node>, path: string, node: Node)
    requires e.name != "" && WellNamed(e.item) && EntryHas(e, path, node)
    ensures Found(Join(rel, path), node) in Preorder(Join(rel, e.name), e.item)
    decreases e.item, 0
  {
    if !(path == e.name && node == e.item) {
      var below := path[|e.name| + 1..];
      assert path == e.name + "/" + below;
      SameTree(Sort(e.item.entries), e.item.entries, below, node);
      TreeIsFound(Join(rel, e.name), Sort(e.item.entries), e.item, below, node);
      JoinJoin(rel, e.name, below);
    }
  }

  lemma {:induction false} TreeIsFound(rel: string, entries: seq<Named<Node>>, parent: Node, path: string, node: Node)
    requires WellNamedEntries(entries) && (forall e :: e in entries ==> e.item < parent) && TreeHas(entries, path, node)
    ensures Found(Join(rel, path), node) in PreorderOf(rel, entries, parent)
    decreases parent, 0, |entries|
  {
    var e :| e in entries && EntryHas(e, path, node);
    if e == entries[0] {
      EntryIsFound(rel, e, path, node);
    } else {
      assert e in entries[1..];
      TreeIsFound(rel, entries[1..], parent, path, node);
    }
  }

  /** A path below the root is at or below one entry only. */
  lemma EntryName(e: Named<Node>, path: string, node: Node)
    requires '/' !in e.name && EntryHas(e, path, node)
    ensures AtOrBelow(e.name, path) && FirstName(path) == e.name
  {
    FirstNameIs(e.name, path);
  }

  /** The root's entries hold exactly the context. */
  lemma RootIsContext(c: Config, listed: seq<Named<Node>>, path: string, node: Node)
    requires WellNamedEntries(listed)
    ensures TreeHas(RootEntries(c, listed), path, node) <==> InContext(c, listed, path, node)
  {
    if c.outside.Some? {
      if AtOrBelow(OUTSIDE_NAME, path) {
        assert '/' !in OUTSIDE_NAME;
        FirstNameIs(OUTSIDE_NAME, path);
      }
      RootOutside(c, listed, path, node);
    }
  }

  lemma RootOutside(c: Config, listed: seq<Named<Node>>, path: string, node: Node)
    requires WellNamedEntries(listed) && c.outside.Some?
    requires AtOrBelow(OUTSIDE_NAME, path) ==> FirstName(path) == OUTSIDE_NAME
    ensures TreeHas(RootEntries(c, listed), path, node) <==> InContext(c, listed, path, node)
  {
    var outside := Named(OUTSIDE_NAME, File(c.outside.value));
    var root := RootEntries(c, listed);
    assert forall e :: e in root <==> e == outside || (e in listed && e.name != OUTSIDE_NAME);
    assert '/' !in OUTSIDE_NAME;
    if e :| e in root && EntryHas(e, path, node) {
      EntryName(e, path, node);
    }
    if e :| e in listed && EntryHas(e, path, node) {
      EntryName(e, path, node);
    }
    if AtOrBelow(OUTSIDE_NAME, path) && path == OUTSIDE_NAME && node == outside.item {
      assert EntryHas(outside, path, node);
    }
  }

  lemma EverythingIsContext(c: Config, listed: seq<Named<Node>>, path: string, node: Node)
    requires WellNamedEntries(listed)
    ensures Found(path, node) in Everything(c, listed) <==> InContext(c, listed, path, node)
  {
    var root := RootEntries(c, listed);
    RootWellNamed(c, listed);
    RootIsContext(c, listed, path, node);
    SameTree(Sort(root), root, path, node);
    if Found(path, node) in Everything(c, listed) {
      var p := FoundIsInTree("", Sort(root), Root(c, listed), Found(path, node));
    }
    if InContext(c, listed, path, node) {
      TreeIsFound("", Sort(root), Root(c, listed), path, node);
    }
  }

  // ---- what is asked for is packed, whatever the rules

  lemma {:induction false} AskedIsPacked(c: Config, rel: string, node: Node, found: Found)
    requires rel != "" && WellNamed(node) && found in Preorder(rel, node) && !found.node.Special? && Asked(c, found.path)
    ensures ItemOf(found.path, found.node) in Items(c, true, rel, node)
    decreases node, 0
  {
    if found == Found(rel, node) {
      IncludedIsPacked(c, rel, node);
    } else {
      PreorderPaths(rel, node, found);
      AskedIsEntered(c, rel, found.path);
      AskedIsPackedOf(c, rel, Sort(node.entries), node, found);
      BelowIsPacked(c, rel, node, ItemOf(found.path, found.node));
    }
  }

  lemma AskedIsEntered(c: Config, rel: string, path: string)
    requires Asked(c, path) && rel + "/" <= path
    ensures Enters(c, rel)
  {
    assert path[|rel|] == '/' && '/' !in OUTSIDE_NAME;
    var i :| 0 <= i < |c.always| && c.always[i] == path;
  }

  lemma IncludedIsPacked(c: Config, rel: string, node: Node)
    requires !node.Special? && Included(c, rel)
    ensures ItemOf(rel, node) in Items(c, true, rel, node)
  {
  }

  lemma BelowIsPacked(c: Config, rel: string, node: Node, item: Item)
    requires node.Directory? && Enters(c, rel) && item in ItemsOf(c, true, rel, Sort(node.entries), node)
    ensures item in Items(c, true, rel, node)
  {
  }

  lemma {:induction false} AskedIsPackedOf(c: Config, rel: string, entries: seq<Named<Node>>, parent: Node, found: Found)
    requires WellNamedEntries(entries) && (forall e :: e in entries ==> e.item < parent)
    requires !found.node.Special? && Asked(c, found.path)
    requires found in PreorderOf(rel, entries, parent)
    ensures ItemOf(found.path, found.node) in ItemsOf(c, true, rel, entries, parent)
    decreases parent, 0, |entries|
  {
    var child := Join(rel, entries[0].name);
    assert entries[0] in entries;
    if found in Preorder(child, entries[0].item) {
      AskedIsPacked(c, child, entries[0].item, found);
    } else {
      AskedIsPackedOf(c, rel, entries[1..], parent, found);
    }
  }

  // ---- what is packed is a node

  lemma {:induction false} ItemIsFound(c: Config, rel: string, node: Node, item: Item) returns (found: Found)
    requires item in Items(c, true, rel, node)
    ensures found in Preorder(rel, node) && !found.node.Special? && item == ItemOf(found.path, found.node)
    decreases node, 0
  {
    found := Found(rel, node);
    if node.Directory? && item != DirectoryItem(rel) {
      found := ItemOfIsFound(c, rel, Sort(node.entries), node, item);
    }
  }

  lemma {:induction false} ItemOfIsFound(c: Config, rel: string, entries: seq<Named<Node>>, parent: Node, item: Item)
    returns (found: Found)
    requires (forall e :: e in entries ==> e.item < parent) && item in ItemsOf(c, true, rel, entries, parent)
    ensures found in PreorderOf(rel, entries, parent) && !found.node.Special? && item == ItemOf(found.path, found.node)
    decreases parent, 0, |entries|
  {
    var child := Join(rel, entries[0].name);
    if item in Items(c, true, child, entries[0].item) {
      found := ItemIsFound(c, child, entries[0].item, item);
    } else {
      found := ItemOfIsFound(c, rel, entries[1..], parent, item);
    }
  }

  // ---- the rest, exactly where the rules do not exclude it

  lemma {:induction false} KeptItemsHas(c: Config, all: seq<Found>, item: Item)
    ensures item in KeptItems(c, all) <==> exists found :: found in all && Kept(c, found) && item == ItemOf(found.path, found.node)
  {
    if all != [] {
      KeptItemsHas(c, all[1..], item);
      assert forall found :: found in all <==> found == all[0] || found in all[1..];
    }
  }

  /** An entry's directory is in the archive, however far above. */
  lemma {:induction false} AncestorIsIn(archive: seq<Item>, dir: string, k: nat)
    requires ParentsFirst("", archive) && k < |archive| && dir != "" && dir + "/" <= archive[k].path
    ensures DirectoryItem(dir) in archive
    decreases k
  {
    var path := archive[k].path;
    ParentBelow(dir, path);
    if ParentOf(path) != dir {
      var l :| 0 <= l < |archive[..k]| && archive[..k][l] == DirectoryItem(ParentOf(path));
      AncestorIsIn(archive, dir, l);
    } else {
      assert archive[..k] <= archive;
    }
  }

  lemma {:induction false} ParentBelow(dir: string, path: string)
    requires dir + "/" <= path
    ensures ParentOf(path) == dir || dir + "/" <= ParentOf(path)
  {
    if |path| > |dir| + 1 {
      assert dir + "/" <= path[..|path| - 1];
      ParentBelow(dir, path[..|path| - 1]);
    } else {
      assert path == dir + "/" && path[..|path| - 1] == dir;
    }
  }

  /** Whatever is below one of the nodes is one of them. */
  ghost predicate ClosedBelow(all: seq<Found>) {
    forall f :: f in all ==> Within(all, f)
  }

  ghost predicate Within(all: seq<Found>, f: Found) {
    forall g :: g in Preorder(f.path, f.node) ==> g in all
  }

  lemma EverythingIsClosed(c: Config, listed: seq<Named<Node>>)
    ensures ClosedBelow(Everything(c, listed))
  {
    forall f | f in Everything(c, listed) ensures Within(Everything(c, listed), f) {
      PreorderBelowOf("", Sort(RootEntries(c, listed)), Root(c, listed), f);
    }
  }

  /** One node, in an archive that is what is kept of such nodes. */
  lemma NodePacked(c: Config, all: seq<Found>, archive: seq<Item>, found: Found)
    requires archive == KeptItems(c, all) && ClosedBelow(all) && found in all
    requires ParentsFirst("", archive) && found.path != "" && !found.node.Special? && !Asked(c, found.path)
    ensures Packs(archive, found.path, found.node) <==>
      !Excluded(c.engine, c.rules, found.path) || (found.node.Directory? && HasBelow(archive, found.path))
  {
    var item := ItemOf(found.path, found.node);
    KeptItemsHas(c, all, item);
    assert Stands(item, found.path, found.node);
    if Packs(archive, found.path, found.node) {
      PackedOnlyIf(c, all, found);
    } else if found.node.Directory? && HasBelow(archive, found.path) {
      var below :| below in archive && found.path + "/" <= below.path;
      var k :| 0 <= k < |archive| && archive[k] == below;
      AncestorIsIn(archive, found.path, k);
    }
  }

  ghost predicate HasBelow(archive: seq<Item>, path: string) {
    exists item :: item in archive && path + "/" <= item.path
  }

  lemma PackedOnlyIf(c: Config, all: seq<Found>, found: Found)
    requires ClosedBelow(all) && found.path != "" && Packs(KeptItems(c, all), found.path, found.node) && !Asked(c, found.path)
    ensures !Excluded(c.engine, c.rules, found.path) || (found.node.Directory? && HasBelow(KeptItems(c, all), found.path))
  {
    var item :| item in KeptItems(c, all) && Stands(item, found.path, found.node);
    KeptItemsHas(c, all, item);
    var kept :| kept in all && Kept(c, kept) && item == ItemOf(kept.path, kept.node);
    if !Wanted(c, kept) {
      KeptForBelow(c, all, kept);
    }
  }

  /** A directory kept for something below it has that in the archive too. */
  lemma KeptForBelow(c: Config, all: seq<Found>, kept: Found)
    requires Within(all, kept) && kept.path != "" && Kept(c, kept) && !Wanted(c, kept)
    ensures kept.node.Directory? && HasBelow(KeptItems(c, all), kept.path)
  {
    var below :| below in PreorderOf(kept.path, Sort(kept.node.entries), kept.node) && Wanted(c, below);
    PreorderPathsOf(kept.path, Sort(kept.node.entries), kept.node, below);
    assert below in Preorder(kept.path, kept.node);
    WantedIsIn(c, all, below);
  }

  lemma WantedIsIn(c: Config, all: seq<Found>, found: Found)
    requires found in all && Wanted(c, found)
    ensures ItemOf(found.path, found.node) in KeptItems(c, all)
  {
    KeptItemsHas(c, all, ItemOf(found.path, found.node));
  }

  /** The archive in the terms of the tree and the rules. */
  lemma ArchiveByTree(c: Config, listed: seq<Named<Node>>)
    requires WellNamedEntries(listed) && DistinctNames(listed)
    ensures var archive := ItemsOf(c, true, "", Sort(RootEntries(c, listed)), Root(c, listed));
      OnlyNodes(c, listed, archive) && HasAsked(c, listed, archive) && (Prunable(c) ==> HasIncluded(c, listed, archive))
  {
    var root := Sort(RootEntries(c, listed));
    var archive := ItemsOf(c, true, "", root, Root(c, listed));
    RootWellNamed(c, listed);
    forall item | item in archive ensures exists node :: InContext(c, listed, item.path, node) && Stands(item, item.path, node) {
      var found := ItemOfIsFound(c, "", root, Root(c, listed), item);
      EverythingIsContext(c, listed, found.path, found.node);
    }
    forall path, node | InContext(c, listed, path, node) && !node.Special? && Asked(c, path)
      ensures Packs(archive, path, node)
    {
      EverythingIsContext(c, listed, path, node);
      AskedIsPackedOf(c, "", root, Root(c, listed), Found(path, node));
      assert Stands(ItemOf(path, node), path, node);
    }
    if Prunable(c) {
      IncludedByTree(c, listed, archive);
    }
  }

  lemma IncludedByTree(c: Config, listed: seq<Named<Node>>, archive: seq<Item>)
    requires WellNamedEntries(listed) && DistinctNames(listed) && Prunable(c)
    requires archive == ItemsOf(c, true, "", Sort(RootEntries(c, listed)), Root(c, listed))
    ensures HasIncluded(c, listed, archive)
  {
    PrunableLosesNothing(c, listed);
    WalkIsKept(c, listed);
    ArchiveShape(c, listed);
    RootWellNamed(c, listed);
    EverythingIsClosed(c, listed);
    forall path, node | InContext(c, listed, path, node) && !node.Special? && !Asked(c, path)
      ensures Packs(archive, path, node) <==>
        (!Excluded(c.engine, c.rules, path) || (node.Directory? && HasBelow(archive, path)))
    {
      EverythingIsContext(c, listed, path, node);
      var p := FoundIsInTree("", Sort(RootEntries(c, listed)), Root(c, listed), Found(path, node));
      NodePacked(c, Everything(c, listed), archive, Found(path, node));
    }
  }

  // ------------------------------------------------------- what was met

  /** How many entries the walk meets: all those in a directory that it enters. */
  ghost function Met(c: Config, rel: string, node: Node): nat
    decreases node, 0
  {
    1 + if node.Directory? && (Included(c, rel) || Enters(c, rel)) then MetOf(c, rel, Sort(node.entries), node) else 0
  }

  ghost function MetOf(c: Config, rel: string, entries: seq<Named<Node>>, parent: Node): nat
    requires forall e :: e in entries ==> e.item < parent
    decreases parent, 0, |entries|
  {
    if entries == [] then 0
    else Met(c, Join(rel, entries[0].name), entries[0].item) + MetOf(c, rel, entries[1..], parent)
  }

  /** How many of them are passed over: special files that no rule excludes. */
  ghost function Passed(c: Config, rel: string, node: Node): nat
    decreases node, 0
  {
    match node
    case Special => if Included(c, rel) then 1 else 0
    case Directory(entries) => if Included(c, rel) || Enters(c, rel) then PassedOf(c, rel, Sort(entries), node) else 0
    case _ => 0
  }

  ghost function PassedOf(c: Config, rel: string, entries: seq<Named<Node>>, parent: Node): nat
    requires forall e :: e in entries ==> e.item < parent
    decreases parent, 0, |entries|
  {
    if entries == [] then 0
    else Passed(c, Join(rel, entries[0].name), entries[0].item) + PassedOf(c, rel, entries[1..], parent)
  }

  /** Everything the walk meets is packed, counted as excluded, or a special file it passes over. */
  lemma {:induction false} AllAccounted(c: Config, rel: string, node: Node)
    ensures |Items(c, true, rel, node)| + Skipped(c, rel, node) + Passed(c, rel, node) == Met(c, rel, node)
    decreases node, 0
  {
    if node.Directory? && (Included(c, rel) || Enters(c, rel)) {
      AllAccountedOf(c, rel, Sort(node.entries), node);
    }
  }

  lemma {:induction false} AllAccountedOf(c: Config, rel: string, entries: seq<Named<Node>>, parent: Node)
    requires forall e :: e in entries ==> e.item < parent
    ensures |ItemsOf(c, true, rel, entries, parent)| + SkippedOf(c, rel, entries, parent) + PassedOf(c, rel, entries, parent)
         == MetOf(c, rel, entries, parent)
    decreases parent, 0, |entries|
  {
    if entries != [] {
      AllAccounted(c, Join(rel, entries[0].name), entries[0].item);
      AllAccountedOf(c, rel, entries[1..], parent);
    }
  }

  /**
    `pack`: the archive of a context. It is the kept part of the tree's
    preorder exactly if the walk prunes nothing that is wanted, and so
    whenever no exception is stray; the totals are the archive's, nothing stays pending, and every
    entry met is packed, counted as excluded, or a special file.
  */
  method Pack(c: Config, listed: seq<Named<Node>>)
    returns (archive: seq<Item>, entries: nat, bytes: nat, excluded: nat)
    requires WellNamedEntries(listed) && DistinctNames(listed)
    ensures archive == ItemsOf(c, true, "", Sort(RootEntries(c, listed)), Root(c, listed))
    ensures archive == KeptItems(c, Everything(c, listed)) <==> LosesNothing(c, Everything(c, listed))
    ensures Prunable(c) ==> archive == KeptItems(c, Everything(c, listed))
    ensures DistinctPaths(archive) && ParentsFirst("", archive) && InOrder(archive)
    ensures OnlyNodes(c, listed, archive) && HasAsked(c, listed, archive)
    ensures Prunable(c) ==> HasIncluded(c, listed, archive)
    ensures entries == |archive| && bytes == TotalBytes(archive)
    ensures excluded == SkippedOf(c, "", Sort(RootEntries(c, listed)), Root(c, listed))
    ensures entries + excluded + PassedOf(c, "", Sort(RootEntries(c, listed)), Root(c, listed))
         == MetOf(c, "", Sort(RootEntries(c, listed)), Root(c, listed))
  {
    var packer := new Packer(c);
    packer.Walk("", listed, Root(c, listed));
    assert Directories([]) == [];
    assert packer.pending == [];
    archive, entries, bytes, excluded := packer.out, packer.entries, packer.bytes, packer.excluded;
    ArchiveShape(c, listed);
    ArchiveInOrder(c, listed);
    ArchiveByTree(c, listed);
    AllAccountedOf(c, "", Sort(RootEntries(c, listed)), Root(c, listed));
    WalkIsKept(c, listed);
    if Prunable(c) {
      PrunableLosesNothing(c, listed);
    }
  }
}
