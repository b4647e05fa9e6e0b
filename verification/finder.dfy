/** `find` of src/operations/utility.ts: an explicit-stack walk that lists
    every path under a root in pre-order, never descending into symbolic
    links, and fails as a whole on the first entry it cannot stat or list.
    The filesystem is an immutable tree; `path.normalize`, `path.join` and
    `fs.lstatSync` of the root are parameters. */
module Finder {
  import opened Results

  /** What the walk finds at an entry. A symbolic link is not a directory
      for `lstat`, so it is never expanded. `Unreadable` is an entry whose
      `lstat`, or whose directory listing, throws with `message` (a missing
      search or read permission, say). */
  datatype Node = File | Symlink | Dir(children: seq<Child>) | Unreadable(message: string)

  /** One entry of a directory listing, in `readdir` order. */
  datatype Child = Child(name: string, node: Node)

  /** Outcome of `lstat` on the root: `ENOENT`, another error, or the entry. */
  datatype Stat = Missing | StatError(message: string) | Present(node: Node)

  /** `_FindItem`: a pending path with its depth and the entry found there. */
  datatype FindItem = FindItem(path: string, level: nat, node: Node)

  /** Number of entries in the tree rooted at `n`, `n` included. */
  function Size(n: Node): nat
    decreases n, 1, 0
  {
    match n
    case Dir(cs) => 1 + ForestSize(cs, 0)
    case _ => 1
  }

  function ForestSize(cs: seq<Child>, i: nat): nat
    requires i <= |cs|
    decreases Dir(cs), 0, |cs| - i
  {
    if i == |cs| then 0 else Size(cs[i].node) + ForestSize(cs, i + 1)
  }

  /** The reference traversal: the entry's own path, then each child's
      traversal in listing order. */
  function Preorder(path: string, n: Node, join: (string, string) -> string): (r: seq<string>)
    ensures |r| >= 1 && r[0] == path
    ensures !n.Dir? ==> r == [path]
    decreases n, 1, 0
  {
    match n
    case Dir(cs) => [path] + ForestPreorder(path, cs, 0, join)
    case _ => [path]
  }

  function ForestPreorder(path: string, cs: seq<Child>, i: nat, join: (string, string) -> string): seq<string>
    requires i <= |cs|
    decreases Dir(cs), 0, |cs| - i
  {
    if i == |cs| then []
    else Preorder(join(path, cs[i].name), cs[i].node, join) + ForestPreorder(path, cs, i + 1, join)
  }

  /** The error messages of the unreadable entries, in the order the
      traversal reaches them. */
  function Failures(n: Node): (r: seq<string>)
    ensures n.Unreadable? ==> r == [n.message]
    ensures n.File? || n.Symlink? ==> r == []
    decreases n, 1, 0
  {
    match n
    case Dir(cs) => ForestFailures(cs, 0)
    case Unreadable(m) => [m]
    case _ => []
  }

  function ForestFailures(cs: seq<Child>, i: nat): seq<string>
    requires i <= |cs|
    decreases Dir(cs), 0, |cs| - i
  {
    if i == |cs| then [] else Failures(cs[i].node) + ForestFailures(cs, i + 1)
  }

  /** The message `find` raises when the walk throws: a fixed prefix naming
      the operation, then the original message, which can be read back. */
  function OperationFailed(message: string): (r: string)
    ensures |r| == 23 + |message|
    ensures r[..19] == "LIB_OperationFailed" && r[19..23] == "find"
    ensures r[23..] == message
  {
    "LIB_OperationFailed" + "find" + message
  }

  /** Every entry is listed exactly once: the traversal has one path per node. */
  lemma {:induction false} PreorderLength(path: string, n: Node, join: (string, string) -> string)
    ensures |Preorder(path, n, join)| == Size(n)
    decreases n, 1, 0
  {
    match n
    case Dir(cs) => ForestPreorderLength(path, cs, 0, join);
    case _ =>
  }

  lemma {:induction false} ForestPreorderLength(path: string, cs: seq<Child>, i: nat, join: (string, string) -> string)
    requires i <= |cs|
    ensures |ForestPreorder(path, cs, i, join)| == ForestSize(cs, i)
    decreases Dir(cs), 0, |cs| - i
  {
    if i < |cs| {
      PreorderLength(join(path, cs[i].name), cs[i].node, join);
      ForestPreorderLength(path, cs, i + 1, join);
    }
  }

  /** Concatenated traversals of a sequence of items, first item first. */
  function ItemsPreorder(items: seq<FindItem>, join: (string, string) -> string): seq<string>
  {
    if items == [] then []
    else Preorder(items[0].path, items[0].node, join) + ItemsPreorder(items[1..], join)
  }

  lemma {:induction false} ItemsPreorderAppend(a: seq<FindItem>, b: seq<FindItem>, join: (string, string) -> string)
    ensures ItemsPreorder(a + b, join) == ItemsPreorder(a, join) + ItemsPreorder(b, join)
  {
    if a != [] {
      assert (a + b)[1..] == a[1..] + b;
      ItemsPreorderAppend(a[1..], b, join);
    } else {
      assert a + b == b;
    }
  }

  function Reverse<T>(s: seq<T>): (r: seq<T>)
    ensures |r| == |s|
  {
    if s == [] then [] else Reverse(s[1..]) + [s[0]]
  }

  lemma {:induction false} ReverseAppend<T>(a: seq<T>, b: seq<T>)
    ensures Reverse(a + b) == Reverse(b) + Reverse(a)
  {
    if a == [] {
      assert a + b == b;
    } else {
      assert (a + b)[1..] == a[1..] + b;
      ReverseAppend(a[1..], b);
    }
  }

  lemma {:induction false} ReverseReverse<T>(s: seq<T>)
    ensures Reverse(Reverse(s)) == s
  {
    if s != [] {
      ReverseAppend(Reverse(s[1..]), [s[0]]);
      ReverseReverse(s[1..]);
      assert Reverse([s[0]]) == [s[0]];
    }
  }

  /** The items a directory pushes: one per listed child, one level deeper. */
  function ChildItems(item: FindItem, join: (string, string) -> string): (r: seq<FindItem>)
    requires item.node.Dir?
    ensures |r| == |item.node.children|
    ensures forall k :: 0 <= k < |r| ==>
              r[k].node == item.node.children[k].node && r[k].level == item.level + 1
  {
    var cs := item.node.children;
    seq(|cs|, k requires 0 <= k < |cs| => FindItem(join(item.path, cs[k].name), item.level + 1, cs[k].node))
  }

  lemma {:induction false} ChildItemsPreorder(item: FindItem, i: nat, join: (string, string) -> string)
    requires item.node.Dir? && i <= |item.node.children|
    ensures ItemsPreorder(ChildItems(item, join)[i..], join)
            == ForestPreorder(item.path, item.node.children, i, join)
    decreases |item.node.children| - i
  {
    var ci := ChildItems(item, join);
    if i < |ci| {
      assert ci[i..][1..] == ci[i + 1..];
      ChildItemsPreorder(item, i + 1, join);
    }
  }

  /** Concatenated failures of a sequence of items, first item first. */
  function ItemsFailures(items: seq<FindItem>): seq<string>
  {
    if items == [] then [] else Failures(items[0].node) + ItemsFailures(items[1..])
  }

  lemma {:induction false} ItemsFailuresAppend(a: seq<FindItem>, b: seq<FindItem>)
    ensures ItemsFailures(a + b) == ItemsFailures(a) + ItemsFailures(b)
  {
    if a != [] {
      assert (a + b)[1..] == a[1..] + b;
      ItemsFailuresAppend(a[1..], b);
    } else {
      assert a + b == b;
    }
  }

  lemma {:induction false} ChildItemsFailures(item: FindItem, i: nat, join: (string, string) -> string)
    requires item.node.Dir? && i <= |item.node.children|
    ensures ItemsFailures(ChildItems(item, join)[i..]) == ForestFailures(item.node.children, i)
    decreases |item.node.children| - i
  {
    var ci := ChildItems(item, join);
    if i < |ci| {
      assert ci[i..][1..] == ci[i + 1..];
      ChildItemsFailures(item, i + 1, join);
    }
  }

  /** The failures of one item: its own, then its children's. */
  lemma SingleItemFailures(item: FindItem, join: (string, string) -> string)
    ensures ItemsFailures([item]) == Failures(item.node)
    ensures Failures(item.node)
            == (if item.node.Unreadable? then [item.node.message] else [])
               + ItemsFailures(if item.node.Dir? then ChildItems(item, join) else [])
  {
    assert [item][1..] == [];
    if item.node.Dir? {
      ChildItemsFailures(item, 0, join);
      assert ChildItems(item, join)[0..] == ChildItems(item, join);
    }
  }

  /** Popping `item` and pushing its children in reverse: the outstanding
      failures are the item's own, then those still on the stack. */
  lemma PopPushFailures(rest: seq<FindItem>, item: FindItem, pushed: seq<FindItem>, join: (string, string) -> string)
    requires pushed == (if item.node.Dir? then Reverse(ChildItems(item, join)) else [])
    ensures ItemsFailures(Reverse(rest + [item]))
            == (if item.node.Unreadable? then [item.node.message] else []) + ItemsFailures(Reverse(rest + pushed))
  {
    var children := if item.node.Dir? then ChildItems(item, join) else [];
    var own := if item.node.Unreadable? then [item.node.message] else [];
    ReverseAppend(rest, [item]);
    assert Reverse([item]) == [item];
    ItemsFailuresAppend([item], Reverse(rest));
    SingleItemFailures(item, join);
    ReverseAppend(rest, Reverse(children));
    ReverseReverse(children);
    ItemsFailuresAppend(children, Reverse(rest));
    AppendAssoc(own, ItemsFailures(children), ItemsFailures(Reverse(rest)));
  }

  /** Popping: the item on top of the stack is traversed first. */
  lemma PopTop(rest: seq<FindItem>, item: FindItem, join: (string, string) -> string)
    ensures ItemsPreorder(Reverse(rest + [item]), join)
            == Preorder(item.path, item.node, join) + ItemsPreorder(Reverse(rest), join)
  {
    ReverseAppend(rest, [item]);
    assert Reverse([item]) == [item];
    ItemsPreorderAppend([item], Reverse(rest), join);
    SingleItemPreorder(item, join);
  }

  /** Pushing items in reverse puts them, first item first, ahead of the
      rest of the stack. */
  lemma PushAll(rest: seq<FindItem>, items: seq<FindItem>, join: (string, string) -> string)
    ensures ItemsPreorder(Reverse(rest + Reverse(items)), join)
            == ItemsPreorder(items, join) + ItemsPreorder(Reverse(rest), join)
  {
    ReverseAppend(rest, Reverse(items));
    ReverseReverse(items);
    ItemsPreorderAppend(items, Reverse(rest), join);
  }

  /** One step of the walk: popping `item` off the top and pushing its children
      in reverse leaves the outstanding traversal equal to the popped path
      followed by what remains. */
  lemma PopPushStep(rest: seq<FindItem>, item: FindItem, pushed: seq<FindItem>, join: (string, string) -> string)
    requires pushed == (if item.node.Dir? then Reverse(ChildItems(item, join)) else [])
    ensures ItemsPreorder(Reverse(rest + [item]), join)
            == [item.path] + ItemsPreorder(Reverse(rest + pushed), join)
  {
    var children := if item.node.Dir? then ChildItems(item, join) else [];
    assert pushed == Reverse(children);
    PopTop(rest, item, join);
    SingleItemPreorder(item, join);
    PushAll(rest, children, join);
    AppendAssoc([item.path], ItemsPreorder(children, join), ItemsPreorder(Reverse(rest), join));
  }

  /** The traversal of one item is its path followed by its children's traversals. */
  lemma SingleItemPreorder(item: FindItem, join: (string, string) -> string)
    ensures ItemsPreorder([item], join) == Preorder(item.path, item.node, join)
    ensures Preorder(item.path, item.node, join)
            == [item.path] + ItemsPreorder(if item.node.Dir? then ChildItems(item, join) else [], join)
  {
    assert [item][1..] == [];
    if item.node.Dir? {
      ChildItemsPreorder(item, 0, join);
      assert ChildItems(item, join)[0..] == ChildItems(item, join);
    }
  }

  /** Moving the head of the outstanding part onto the done part keeps their
      concatenation. */
  lemma MoveHead<T>(done: seq<T>, x: T, pending: seq<T>, all: seq<T>)
    requires done + ([x] + pending) == all
    ensures (done + [x]) + pending == all
  {
    assert (done + [x]) + pending == done + ([x] + pending);
  }

  /** One turn of the loop over a readable item keeps both invariants of
      `Walk`: the paths listed so far followed by the stack's traversal are
      the whole traversal, and the stack holds every failure still ahead. */
  lemma WalkStep(result: seq<string>, rest: seq<FindItem>, item: FindItem, next: seq<FindItem>,
                 all: seq<string>, failures: seq<string>, join: (string, string) -> string)
    requires !item.node.Unreadable?
    requires next == rest + (if item.node.Dir? then Reverse(ChildItems(item, join)) else [])
    requires result + ItemsPreorder(Reverse(rest + [item]), join) == all
    requires ItemsFailures(Reverse(rest + [item])) == failures
    ensures (result + [item.path]) + ItemsPreorder(Reverse(next), join) == all
    ensures ItemsFailures(Reverse(next)) == failures
  {
    var pushed := if item.node.Dir? then Reverse(ChildItems(item, join)) else [];
    PopPushFailures(rest, item, pushed, join);
    PopPushStep(rest, item, pushed, join);
    MoveHead(result, item.path, ItemsPreorder(Reverse(next), join), all);
  }

  /** An unreadable item on top of the stack holds the first failure ahead. */
  lemma UnreadableOnTop(rest: seq<FindItem>, item: FindItem, join: (string, string) -> string)
    requires item.node.Unreadable?
    ensures ItemsFailures(Reverse(rest + [item])) != []
    ensures ItemsFailures(Reverse(rest + [item]))[0] == item.node.message
  {
    PopPushFailures(rest, item, [], join);
  }

  lemma SplitLast<T>(s: seq<T>)
    requires s != []
    ensures s == s[..|s| - 1] + [s[|s| - 1]]
  {
  }

  /** The `for` loop that pushes a directory's children last-first, so that
      the first child is on top of the stack. */
  method PushReversed(stack: seq<FindItem>, childItems: seq<FindItem>) returns (r: seq<FindItem>)
    ensures r == stack + Reverse(childItems)
  {
    r := stack;
    var i := |childItems|;
    while i > 0
      invariant 0 <= i <= |childItems|
      invariant r == stack + Reverse(childItems[i..])
    {
      i := i - 1;
      assert childItems[i..] == [childItems[i]] + childItems[i + 1..];
      r := r + [childItems[i]];
    }
    assert childItems[0..] == childItems;
  }

  /** `find`: an empty path or a missing root yields no paths, any other
      failure to stat the root is raised as it is, an unreadable entry in the
      tree raises the wrapped message of the first one reached, and otherwise
      the result is the pre-order traversal from the normalized root. */
  method Find(findPath: string, normalize: string -> string, join: (string, string) -> string,
              lstat: string -> Stat) returns (r: Result<seq<string>>)
    ensures findPath == [] ==> r == Success([])
    ensures findPath != [] ==>
      match lstat(normalize(findPath))
      case Missing => r == Success([])
      case StatError(m) => r == Failure(m)
      case Present(n) =>
        && (Failures(n) == [] ==> r == Success(Preorder(normalize(findPath), n, join)))
        && (Failures(n) != [] ==> r == Failure(OperationFailed(Failures(n)[0])))
  {
    if findPath == [] {
      return Success([]);
    }
    var root := normalize(findPath);
    match lstat(root)
    case Missing =>
      return Success([]);
    case StatError(m) =>
      return Failure(m);
    case Present(n) =>
      r := Walk(root, n, join);
  }

  /** The `while` loop of `find` inside its `try`: pop the top item, record
      its path, and push a directory's children in reverse listing order. An
      unreadable entry throws, and the `catch` discards the paths found so
      far and raises the wrapped message. */
  method Walk(root: string, n: Node, join: (string, string) -> string) returns (r: Result<seq<string>>)
    ensures Failures(n) == [] ==> r == Success(Preorder(root, n, join))
    ensures Failures(n) != [] ==> r == Failure(OperationFailed(Failures(n)[0]))
  {
    ghost var all := Preorder(root, n, join);
    var result := [];
    var stack := [FindItem(root, 1, n)];
    SingleItemPreorder(stack[0], join);
    SingleItemFailures(stack[0], join);
    assert Reverse(stack) == stack;
    while |stack| > 0
      invariant result + ItemsPreorder(Reverse(stack), join) == all
      invariant ItemsFailures(Reverse(stack)) == Failures(n)
      decreases |all| - |result|
    {
      var item := stack[|stack| - 1];
      var rest := stack[..|stack| - 1];
      SplitLast(stack);
      if item.node.Unreadable? {
        UnreadableOnTop(rest, item, join);
        return Failure(OperationFailed(item.node.message));
      }
      var next := rest;
      if item.node.Dir? {
        next := PushReversed(rest, ChildItems(item, join));
      }
      WalkStep(result, rest, item, next, all, Failures(n), join);
      result := result + [item.path];
      stack := next;
    }
    assert Reverse(stack) == [];
    assert result + [] == result;
    return Success(result);
  }
}
