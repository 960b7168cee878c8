/**
 The negative cache: a PATRICIA trie of linked nodes that remembers, per address, when it was
 last found clean. The trie is proved to behave as a plain map from address to time.
 */
module NegCache {
  import opened Bits
  import opened Options
  import opened Patricia

  class Node {
    var ip: nat
    var seen: int
    var b: nat
    var l: Node
    var r: Node

    /** The head of an empty trie: zeroed, and linked to itself on both sides. */
    constructor Head(maxb: nat)
      ensures ip == 0 && seen == 0 && b == maxb && l == this && r == this
    {
      ip, seen, b := 0, 0, maxb;
      l, r := this, this;
    }

    /** A node for ip that tests bit b; the side on which ip falls leads back to itself. */
    constructor (ip: nat, b: nat, x: Node)
      ensures this.ip == ip && this.b == b && seen == 0
      ensures if Bit(ip, b) == 1 then l == x && r == this else l == this && r == x
    {
      this.ip, this.b, seen := ip, b, 0;
      l, r := this, this;
      new;
      if Bit(ip, b) == 1 { l := x; } else { r := x; }
    }
  }

  /** The node of address k stores what the table says. */
  ghost predicate Stores(k: nat, cells: Table, at: map<nat, Node>)
    requires k in cells && k in at
    reads at[k]
  {
    && at[k].ip == k
    && at[k].b == cells[k].b
    && cells[k].l in at && at[k].l == at[cells[k].l]
    && cells[k].r in at && at[k].r == at[cells[k].r]
  }

  /** The nodes of a trie, all among nodes, are linked as its table of cells says. */
  ghost predicate Linked(cells: Table, at: map<nat, Node>, nodes: set<Node>)
    reads nodes
  {
    && cells.Keys == at.Keys
    && (forall k | k in at :: at[k] in nodes)
    && forall k {:trigger Stores(k, cells, at)} | k in at :: Stores(k, cells, at)
  }

  /** The head on top of a tree: its left link leads into the tree, its right one to itself. */
  ghost function Whole(tree: Tree, maxb: nat): Tree {
    Down(0, maxb, tree, Up(0))
  }

  /** A well-shaped trie of addresses below 2^maxb, listed in the table. */
  ghost predicate Sound(tree: Tree, maxb: nat, cells: Table) {
    && Shaped(tree, maxb, {0})
    && 0 in Ups(tree)
    && Listed(Whole(tree, maxb), cells)
    && cells.Keys == Downs(tree) + {0}
    && forall k | k in cells :: k < Pow2(maxb)
  }

  lemma SoundKeys(tree: Tree, maxb: nat, cells: Table)
    requires Sound(tree, maxb, cells)
    ensures cells.Keys == Ups(tree)
    ensures 0 !in Downs(tree)
  {
    UpsWithinReach(tree, maxb, {0});
  }

  ghost function SpliceTable(cells: Table, ip: nat, i: nat, parent: nat, target: nat): Table
    requires parent in cells
  {
    cells[parent := Relinked(cells[parent], ip)][ip := NewCell(ip, i, target)]
  }

  /** A splice at the highest differing bit keeps the trie sound. */
  lemma {:induction false} SpliceSound(tree: Tree, maxb: nat, cells: Table, ip: nat, i: nat)
    requires Sound(tree, maxb, cells)
    requires ip < Pow2(maxb) && ip !in cells && i < maxb
    requires HighestDifference(Lookup(tree, ip), ip, i)
    ensures SpliceParent(tree, ip, i, 0) in cells
    ensures Sound(Splice(tree, ip, i), maxb,
                  SpliceTable(cells, ip, i, SpliceParent(tree, ip, i, 0), SpliceTarget(tree, ip, i)))
  {
    SoundKeys(tree, maxb, cells);
    SpliceShaped(tree, maxb, {0}, ip, i);
    ShapedDistinct(tree, maxb, {0});
    HighBitsZero(ip, maxb, maxb);
    SpliceParentWithin(tree, ip, i, 0);
    var cells' := SpliceTable(cells, ip, i, SpliceParent(tree, ip, i, 0), SpliceTarget(tree, ip, i));
    SpliceListed(Whole(tree, maxb), ip, i, ip, cells, cells');
  }

  class Trie {
    const maxb: nat
    const head: Node
    ghost var tree: Tree
    ghost var cells: Table
    ghost var at: map<nat, Node>
    /** The trie as a map: every stored address but the head's, with the time it was seen. */
    ghost var entries: Entries
    ghost var nodes: set<Node>

    /** The nodes are linked as a sound trie. */
    ghost predicate Core()
      reads this`tree, this`cells, this`at, this`nodes, nodes
    {
      && Sound(tree, maxb, cells)
      && Linked(cells, at, nodes)
      && 0 in at && at[0] == head
    }

    ghost predicate Valid()
      reads this, nodes
    {
      && Core()
      && entries.Keys == at.Keys - {0}
      && forall k | k in entries :: entries[k] == at[k].seen
    }

    /** The nodes are those there were, and new ones. */
    twostate predicate Grew()
      reads this
    {
      forall n | n in nodes :: n in old(nodes) || fresh(n)
    }

    /** nc_init: an empty trie is a head linked to itself. */
    constructor (maxb: nat)
      ensures Valid() && fresh(nodes) && this.maxb == maxb
      ensures entries == map[] && head.seen == 0
    {
      var h := new Node.Head(maxb);
      this.maxb := maxb;
      head := h;
      tree := Up(0);
      cells := map[0 := Cell(maxb, 0, 0)];
      at := map[0 := h];
      entries := map[];
      nodes := {h};
    }

    /**
     A position in a descent: p leads to x, the node cur tops or the one its up-link names, and
     the nodes above cur test bits no lower than p's.
     */
    ghost predicate Position(p: Node, x: Node, cur: Tree, anc: set<nat>)
      reads this, nodes, p, x
    {
      && cur.key in at && x == at[cur.key]
      && (cur.Down? ==> x.b == cur.b)
      && Listed(cur, cells)
      && Shaped(cur, p.b, anc)
      && anc <= at.Keys
      && forall k | k in anc :: at[k] in nodes && at[k].b >= p.b
    }

    lemma StartPosition()
      requires Core()
      ensures Position(head, head.l, tree, {0})
    {
      assert Stores(0, cells, at);
      assert Listed(tree, cells);
      assert Stores(tree.key, cells, at);
    }

    /** One step down keeps the position; a link leads up exactly when the tested bit does not fall. */
    lemma StepPosition(p: Node, x: Node, cur: Tree, anc: set<nat>, ip: nat)
      requires Core() && Position(p, x, cur, anc) && cur.Down?
      ensures Position(x, if Bit(ip, x.b) == 1 then x.r else x.l, Side(ip, cur), anc + {cur.key})
    {
      assert Stores(cur.key, cells, at);
      var s := Side(ip, cur);
      assert Listed(s, cells);
      assert Stores(s.key, cells, at);
      assert Shaped(s, cur.b, anc + {cur.key});
    }

    lemma HeadApart()
      requires Valid()
      ensures head in nodes && head !in NodesOf(this, entries.Keys) && NodesOf(this, entries.Keys) <= nodes
    {
      OwnNode(0);
    }

    /** Follow ip's bits down from the head until a link leads back up. */
    method Descend(ip: nat) returns (x: Node, ghost tests: nat)
      requires Core()
      ensures Lookup(tree, ip) in at && x == at[Lookup(tree, ip)]
      ensures tests == Tests(tree, ip)
    {
      StartPosition();
      var p := head;
      x := head.l;
      tests := 0;
      ghost var cur, anc := tree, {0};
      while p.b > x.b
        invariant Position(p, x, cur, anc)
        invariant Lookup(cur, ip) == Lookup(tree, ip)
        invariant tests + Tests(cur, ip) == Tests(tree, ip)
        decreases cur
      {
        StepPosition(p, x, cur, anc, ip);
        p, x := x, if Bit(ip, x.b) == 1 then x.r else x.l;
        cur, anc := Side(ip, cur), anc + {cur.key};
        tests := tests + 1;
      }
    }

    /** The descent ends at a node that holds ip exactly when ip is stored. */
    lemma DescentEnds(ip: nat)
      requires Core()
      ensures Lookup(tree, ip) in at && Lookup(tree, ip) < Pow2(maxb)
      ensures at[Lookup(tree, ip)].ip == Lookup(tree, ip)
      ensures Lookup(tree, ip) == ip <==> ip in at
    {
      SoundKeys(tree, maxb, cells);
      LookupFinds(tree, maxb, {0}, ip);
      LookupReachesLeaf(tree, ip);
      assert Stores(Lookup(tree, ip), cells, at);
    }

    /** nc_search: the node that holds ip, if there is one; the cost is one test per bit or node at most. */
    method Search(ip: nat) returns (n: Node?, ghost tests: nat)
      requires Valid()
      ensures n != null <==> ip == 0 || ip in entries
      ensures n != null ==> ip in at && n == at[ip] && n.ip == ip && (ip != 0 ==> n.seen == entries[ip])
      ensures tests <= maxb && tests <= |entries|
    {
      var x;
      x, tests := Descend(ip);
      DescentEnds(ip);
      TestsBounded(tree, maxb, {0}, ip);
      SoundKeys(tree, maxb, cells);
      assert entries.Keys == Downs(tree);
      n := if ip == x.ip then x else null;
    }

    /** The highest bit in which ip differs from the address a descent ended at. */
    method HighestDifferentBit(other: nat, ip: nat) returns (i: nat)
      requires other < Pow2(maxb) && ip < Pow2(maxb) && other != ip
      ensures i < maxb && HighestDifference(other, ip, i)
    {
      ghost var k := DifferInSomeBit(other, ip, maxb);
      forall j: nat | j >= maxb ensures Bit(other, j) == Bit(ip, j) {
        HighBitsZero(other, maxb, j);
        HighBitsZero(ip, maxb, j);
      }
      i := maxb;
      while Bit(other, i) == Bit(ip, i)
        invariant k <= i <= maxb
        invariant SameAbove(other, ip, i)
        decreases i
      {
        i := i - 1;
      }
    }

    /** Descend for ip past the nodes that test a bit above i; x is where the new node goes in and p its parent. */
    method FindSpot(ip: nat, i: nat) returns (p: Node, x: Node)
      requires Core()
      ensures SpliceParent(tree, ip, i, 0) in at && p == at[SpliceParent(tree, ip, i, 0)]
      ensures SpliceTarget(tree, ip, i) in at && x == at[SpliceTarget(tree, ip, i)]
    {
      StartPosition();
      p := head;
      x := head.l;
      ghost var cur, anc, q := tree, {0}, 0;
      while p.b > x.b && x.b > i
        invariant Position(p, x, cur, anc)
        invariant q in at && p == at[q]
        invariant SpliceParent(cur, ip, i, q) == SpliceParent(tree, ip, i, 0)
        invariant SpliceTarget(cur, ip, i) == SpliceTarget(tree, ip, i)
        decreases cur
      {
        StepPosition(p, x, cur, anc, ip);
        p, x := x, if Bit(ip, x.b) == 1 then x.r else x.l;
        q := cur.key;
        cur, anc := Side(ip, cur), anc + {cur.key};
      }
    }

    /** nc_insert: the node that holds ip, added (zeroed) if it was missing; nothing else that is stored changes. */
    method Insert(ip: nat) returns (n: Node)
      requires Valid() && ip < Pow2(maxb)
      modifies this, nodes
      ensures Valid() && Grew()
      ensures ip in at && n == at[ip] && n.ip == ip
      ensures entries == if ip in old(at) then old(entries) else old(entries)[ip := 0]
      ensures head.seen == old(head.seen)
    {
      ghost var tests;
      n, tests := Descend(ip);
      DescentEnds(ip);
      if ip != n.ip {
        n := AddMissing(ip, n.ip);
      }
    }

    /** The second half of nc_insert: the descent for ip ended at another address. */
    method AddMissing(ip: nat, other: nat) returns (n: Node)
      requires Valid() && ip < Pow2(maxb) && ip !in at && other < Pow2(maxb)
      requires other == Lookup(tree, ip) && other != ip
      modifies this, nodes
      ensures Valid() && Grew()
      ensures ip in at && n == at[ip] && n.ip == ip
      ensures entries == old(entries)[ip := 0] && head.seen == old(head.seen)
    {
      n := Place(ip, other);
      entries := entries[ip := 0];
    }

    method Place(ip: nat, other: nat) returns (t: Node)
      requires Core() && ip < Pow2(maxb) && ip !in at && other < Pow2(maxb)
      requires other == Lookup(tree, ip) && other != ip
      modifies this`tree, this`cells, this`at, this`nodes, nodes`l, nodes`r
      ensures Core()
      ensures fresh(t) && t.ip == ip && t.seen == 0 && at == old(at)[ip := t] && nodes == old(nodes) + {t}
    {
      var i := HighestDifferentBit(other, ip);
      var p, x := FindSpot(ip, i);
      t := InsertAt(ip, i, p, x);
    }

    /** Store ip with a time; address 0 is the head's own, not an entry, and stamps the head. */
    method Put(ip: nat, seen: int)
      requires Valid() && ip < Pow2(maxb)
      modifies this, nodes
      ensures Valid() && Grew()
      ensures entries == if ip == 0 then old(entries) else old(entries)[ip := seen]
      ensures head.seen == if ip == 0 then seen else old(head.seen)
    {
      var n := Insert(ip);
      assert ip == 0 ==> entries == old(entries);
      assert entries[ip := seen] == old(entries)[ip := seen];
      SetSeen(ip, n, seen);
    }

    method Stamp(ghost ip: nat, n: Node, seen: int)
      requires Core() && ip in at && n == at[ip]
      modifies n`seen
      ensures Core() && n.seen == seen && forall k | k in at && k != ip :: at[k].seen == old(at[k].seen)
    {
      OwnNode(ip);
      n.seen := seen;
      SeenApart();
    }

    method SetSeen(ghost ip: nat, n: Node, seen: int)
      requires Valid() && ip in at && n == at[ip]
      modifies this`entries, n`seen
      ensures Valid()
      ensures entries == if ip == 0 then old(entries) else old(entries)[ip := seen]
      ensures head.seen == if ip == 0 then seen else old(head.seen)
    {
      Stamp(ip, n, seen);
      if ip != 0 { entries := entries[ip := seen]; }
    }

    /** No two addresses share a node. */
    lemma OwnNode(ip: nat)
      requires Core() && ip in at
      ensures forall k | k in at && k != ip :: at[k] != at[ip]
    {
      assert Stores(ip, cells, at);
      forall k | k in at && k != ip ensures at[k] != at[ip] {
        assert Stores(k, cells, at);
      }
    }

    /** The links of the trie do not depend on the times it stores. */
    twostate lemma SeenApart()
      requires old(Core())
      requires at == old(at) && cells == old(cells) && nodes == old(nodes) && tree == old(tree)
      requires forall k | k in at ::
                 && at[k].ip == old(at[k].ip) && at[k].b == old(at[k].b)
                 && at[k].l == old(at[k].l) && at[k].r == old(at[k].r)
      ensures Core()
    {
      forall k | k in at ensures Stores(k, cells, at) {
        assert old(Stores(k, cells, at));
      }
    }

    /** Link a new node for ip between p and x; the trie grows by a splice. */
    method InsertAt(ip: nat, i: nat, p: Node, x: Node) returns (t: Node)
      requires Core() && ip < Pow2(maxb) && ip !in at && i < maxb
      requires HighestDifference(Lookup(tree, ip), ip, i)
      requires SpliceParent(tree, ip, i, 0) in at && p == at[SpliceParent(tree, ip, i, 0)]
      requires SpliceTarget(tree, ip, i) in at && x == at[SpliceTarget(tree, ip, i)]
      modifies this`tree, this`cells, this`at, this`nodes, p`l, p`r
      ensures Core()
      ensures fresh(t) && t.ip == ip && t.seen == 0 && at == old(at)[ip := t] && nodes == old(nodes) + {t}
    {
      SpliceSound(tree, maxb, cells, ip, i);
      ghost var pk, xk := SpliceParent(tree, ip, i, 0), SpliceTarget(tree, ip, i);
      t := Attach(cells, at, nodes, ip, i, p, x, pk, xk);
      cells := SpliceTable(cells, ip, i, pk, xk);
      tree := Splice(tree, ip, i);
      at := at[ip := t];
      nodes := nodes + {t};
    }

    static method Attach(ghost cells: Table, ghost at: map<nat, Node>, ghost nodes: set<Node>,
                         ip: nat, i: nat, p: Node, x: Node, ghost pk: nat, ghost xk: nat)
      returns (t: Node)
      requires Linked(cells, at, nodes) && ip !in at
      requires pk in at && p == at[pk] && xk in at && x == at[xk]
      modifies p`l, p`r
      ensures fresh(t) && t.ip == ip && t.seen == 0
      ensures Linked(SpliceTable(cells, ip, i, pk, xk), at[ip := t], nodes + {t})
    {
      assert Stores(pk, cells, at);
      t := new Node(ip, i, x);
      if Bit(ip, p.b) == 1 { p.r := t; } else { p.l := t; }
      ghost var cells', at' := SpliceTable(cells, ip, i, pk, xk), at[ip := t];
      forall k | k in at' ensures Stores(k, cells', at') {
        if k != ip {
          assert old(Stores(k, cells, at));
        }
      }
    }
  }

  // ---- Rebuilding: copy what is recent enough, release everything else ----

  type Entries = map<nat, int>

  /** The entries among keys that a rebuild at time now keeps. */
  ghost function Kept(entries: Entries, keys: set<nat>, now: int, negcache: int): Entries {
    map k | k in keys && k in entries && now - entries[k] < negcache :: entries[k]
  }

  /** Splitting the kept entries of a part between its root and its sides. */
  lemma KeptSplits(entries: Entries, into: Entries, k: nat, a: set<nat>, b: set<nat>, now: int, negcache: int)
    requires k in entries
    ensures into + Kept(entries, {k} + a + b, now, negcache) ==
            into + Kept(entries, a, now, negcache) + Kept(entries, b, now, negcache)
            + if now - entries[k] < negcache then map[k := entries[k]] else map[]
  {
  }

  /** Which nodes have been handed back to the allocator. */
  class Memory {
    ghost var released: set<Node>

    constructor ()
      ensures released == {}
    {
      released := {};
    }

    /** MyFree: a node may be released once. */
    method Free(n: Node)
      requires n !in released
      modifies this
      ensures released == old(released) + {n}
    {
      released := released + {n};
    }
  }

  // Reads of a node that go through the allocator: only a node that is not released may be read.
  function Ip(mem: Memory, n: Node): nat requires n !in mem.released reads mem, n { n.ip }
  function Seen(mem: Memory, n: Node): int requires n !in mem.released reads mem, n { n.seen }
  function TestBit(mem: Memory, n: Node): nat requires n !in mem.released reads mem, n { n.b }
  function Left(mem: Memory, n: Node): Node requires n !in mem.released reads mem, n { n.l }
  function Right(mem: Memory, n: Node): Node requires n !in mem.released reads mem, n { n.r }

  /** t is a part of the trie src, and anc are the nodes above it. */
  ghost predicate PartOf(src: Trie, t: Tree, hi: nat, anc: set<nat>)
    reads src, src.nodes
  {
    && Linked(src.cells, src.at, src.nodes)
    && Shaped(t, hi, anc)
    && Listed(t, src.cells)
    && Downs(t) + anc <= src.at.Keys
    && (forall k | k in Downs(t) :: k in src.entries && src.entries[k] == src.at[k].seen)
    && forall k | k in anc :: src.at[k].b >= hi
  }

  ghost function NodesOf(src: Trie, keys: set<nat>): set<Node>
    reads src
  {
    set k | k in keys && k in src.at :: src.at[k]
  }

  /** The sides of a part are parts, and the bits tested tell its up-links from its down-links. */
  lemma SidesOf(src: Trie, t: Tree, hi: nat, anc: set<nat>)
    requires PartOf(src, t, hi, anc) && t.Down?
    ensures PartOf(src, t.left, t.b, anc + {t.key}) && PartOf(src, t.right, t.b, anc + {t.key})
    ensures var n := src.at[t.key];
            && n.ip == t.key && n.b == t.b
            && t.left.key in Downs(t.left) + anc + {t.key} && n.l == src.at[t.left.key]
            && t.right.key in Downs(t.right) + anc + {t.key} && n.r == src.at[t.right.key]
            && (n.b > n.l.b <==> t.left.Down?) && (n.b > n.r.b <==> t.right.Down?)
    ensures t.key !in Downs(t.left) && t.key !in Downs(t.right) && Downs(t.left) !! anc && Downs(t.right) !! anc
  {
    UpsWithinReach(t.left, t.b, anc + {t.key});
    UpsWithinReach(t.right, t.b, anc + {t.key});
    assert Stores(t.key, src.cells, src.at);
    assert Listed(t.left, src.cells) && Listed(t.right, src.cells);
    assert Stores(t.left.key, src.cells, src.at);
    assert Stores(t.right.key, src.cells, src.at);
  }

  /** Different addresses have different nodes, so disjoint sets of them have disjoint nodes. */
  lemma NodesDisjoint(src: Trie, a: set<nat>, b: set<nat>)
    requires Linked(src.cells, src.at, src.nodes) && a !! b
    ensures NodesOf(src, a) !! NodesOf(src, b)
  {
    forall x, y | x in a && y in b && x in src.at && y in src.at ensures src.at[x] != src.at[y] {
      assert Stores(x, src.cells, src.at) && Stores(y, src.cells, src.at);
    }
  }

  /** Splitting the nodes of a part between its root and its sides. */
  lemma NodesSplit(src: Trie, into: set<Node>, k: nat, a: set<nat>, b: set<nat>)
    requires k in src.at
    ensures into + NodesOf(src, {k} + a + b) == into + NodesOf(src, a) + NodesOf(src, b) + {src.at[k]}
  {
  }

  /** The last step for a node: copy it if it is recent enough, then release it. */
  method KeepOrDrop(mem: Memory, dst: Trie, n: Node, now: int, negcache: int)
    requires n !in mem.released
    requires dst.Valid() && n.ip < Pow2(dst.maxb) && n.ip != 0
    modifies mem, dst, dst.nodes
    ensures mem.released == old(mem.released) + {n}
    ensures dst.Valid() && dst.Grew() && dst.head.seen == old(dst.head.seen)
    ensures dst.entries == old(dst.entries) +
                              if now - old(n.seen) < negcache then map[old(n.ip) := old(n.seen)] else map[]
  {
    KeepRecent(mem, dst, n, now, negcache);
    mem.Free(n);
  }

  method KeepRecent(mem: Memory, dst: Trie, n: Node, now: int, negcache: int)
    requires n !in mem.released
    requires dst.Valid() && n.ip < Pow2(dst.maxb) && n.ip != 0
    modifies dst, dst.nodes
    ensures dst.Valid() && dst.Grew() && dst.head.seen == old(dst.head.seen)
    ensures dst.entries == old(dst.entries) +
                              if now - old(n.seen) < negcache then map[old(n.ip) := old(n.seen)] else map[]
  {
    if now - Seen(mem, n) < negcache {
      dst.Put(Ip(mem, n), Seen(mem, n));
    }
  }

  /** What the rebuild steps need of the two tries and the allocator at a part t of src. */
  ghost predicate Ready(mem: Memory, src: Trie, dst: Trie, t: Tree, hi: nat, anc: set<nat>)
    reads mem, src, src.nodes, dst, dst.nodes
  {
    && PartOf(src, t, hi, anc) && 0 in anc
    && mem.released !! NodesOf(src, Downs(t) + anc)
    && dst.Valid() && dst.nodes !! src.nodes && src != dst
    && forall k | k in Downs(t) :: k < Pow2(dst.maxb)
  }

  /** Follow one link of n if it leads down, that is, to a node that tests a lower bit. */
  method RebuildSide(mem: Memory, src: Trie, dst: Trie, n: Node, x: Node, now: int, negcache: int,
                     ghost t: Tree, ghost anc: set<nat>)
    requires Ready(mem, src, dst, t, n.b, anc) && t.key in src.at && x == src.at[t.key]
    requires n in NodesOf(src, anc) && (n.b > x.b <==> t.Down?)
    modifies mem, dst, dst.nodes
    ensures mem.released == old(mem.released) + NodesOf(src, Downs(t))
    ensures dst.Valid() && dst.Grew() && dst.head.seen == old(dst.head.seen)
    ensures dst.entries == old(dst.entries) + Kept(src.entries, Downs(t), now, negcache)
    decreases n.b, 0
  {
    if TestBit(mem, n) > TestBit(mem, x) {
      RebuildNode(mem, src, dst, x, now, negcache, t, n.b, anc);
    }
  }

  /** The left side of a part is ready, and its nodes are apart from all others in sight. */
  lemma ReadyLeft(mem: Memory, src: Trie, dst: Trie, t: Tree, hi: nat, anc: set<nat>)
    requires Ready(mem, src, dst, t, hi, anc) && t.Down?
    ensures var n := src.at[t.key]; var anc' := anc + {t.key};
            && n in NodesOf(src, anc') && n !in mem.released
            && Ready(mem, src, dst, t.left, n.b, anc')
            && t.left.key in src.at && n.l == src.at[t.left.key] && (n.b > n.l.b <==> t.left.Down?)
            && NodesOf(src, Downs(t.left)) !! NodesOf(src, Downs(t.right) + anc')
  {
    SidesOf(src, t, hi, anc);
    NodesDisjoint(src, Downs(t.left), Downs(t.right) + (anc + {t.key}));
  }

  /** So is the right side, for as long as the left side's nodes are all that was released since. */
  lemma ReadyRight(mem: Memory, src: Trie, dst: Trie, t: Tree, hi: nat, anc: set<nat>)
    requires PartOf(src, t, hi, anc) && t.Down? && 0 in anc
    requires mem.released !! NodesOf(src, Downs(t.right) + (anc + {t.key}))
    requires dst.Valid() && dst.nodes !! src.nodes && src != dst
    requires forall k | k in Downs(t) :: k < Pow2(dst.maxb)
    ensures var n := src.at[t.key]; var anc' := anc + {t.key};
            && n in NodesOf(src, anc') && n !in mem.released
            && Ready(mem, src, dst, t.right, n.b, anc')
            && t.right.key in src.at && n.r == src.at[t.right.key] && (n.b > n.r.b <==> t.right.Down?)
            && n !in NodesOf(src, Downs(t.right))
  {
    SidesOf(src, t, hi, anc);
    NodesDisjoint(src, Downs(t.right), anc + {t.key});
  }

  /** The left link of n; afterwards the right side is as it was. */
  method RebuildLeft(mem: Memory, src: Trie, dst: Trie, n: Node, now: int, negcache: int,
                     ghost t: Tree, ghost hi: nat, ghost anc: set<nat>)
    requires Ready(mem, src, dst, t, hi, anc) && t.Down? && n == src.at[t.key]
    modifies mem, dst, dst.nodes
    ensures mem.released == old(mem.released) + NodesOf(src, Downs(t.left))
    ensures mem.released !! NodesOf(src, Downs(t.right) + (anc + {t.key}))
    ensures dst.Valid() && dst.Grew() && dst.nodes !! src.nodes
    ensures dst.head.seen == old(dst.head.seen)
    ensures dst.entries == old(dst.entries) + Kept(src.entries, Downs(t.left), now, negcache)
    decreases n.b, 1
  {
    ReadyLeft(mem, src, dst, t, hi, anc);
    RebuildSide(mem, src, dst, n, Left(mem, n), now, negcache, t.left, anc + {t.key});
  }

  /** The right link of n, once the left side is gone. */
  method RebuildRight(mem: Memory, src: Trie, dst: Trie, n: Node, now: int, negcache: int,
                      ghost t: Tree, ghost hi: nat, ghost anc: set<nat>)
    requires PartOf(src, t, hi, anc) && t.Down? && 0 in anc && n == src.at[t.key]
    requires mem.released !! NodesOf(src, Downs(t.right) + (anc + {t.key}))
    requires dst.Valid() && dst.nodes !! src.nodes && src != dst
    requires forall k | k in Downs(t) :: k < Pow2(dst.maxb)
    modifies mem, dst, dst.nodes
    ensures mem.released == old(mem.released) + NodesOf(src, Downs(t.right)) && n !in mem.released
    ensures dst.Valid() && dst.Grew() && dst.head.seen == old(dst.head.seen)
    ensures dst.entries == old(dst.entries) + Kept(src.entries, Downs(t.right), now, negcache)
    decreases n.b, 1
  {
    ReadyRight(mem, src, dst, t, hi, anc);
    RebuildSide(mem, src, dst, n, Right(mem, n), now, negcache, t.right, anc + {t.key});
  }

  /** Both links of n, left first; n itself is still to be dealt with. */
  method RebuildSides(mem: Memory, src: Trie, dst: Trie, n: Node, now: int, negcache: int,
                      ghost t: Tree, ghost hi: nat, ghost anc: set<nat>)
    requires Ready(mem, src, dst, t, hi, anc) && t.Down? && n == src.at[t.key]
    modifies mem, dst, dst.nodes
    ensures mem.released == old(mem.released) + NodesOf(src, Downs(t.left)) + NodesOf(src, Downs(t.right))
    ensures n !in mem.released
    ensures dst.Valid() && dst.Grew() && dst.head.seen == old(dst.head.seen)
    ensures dst.entries == old(dst.entries) + Kept(src.entries, Downs(t.left), now, negcache)
                                            + Kept(src.entries, Downs(t.right), now, negcache)
    decreases n.b, 2
  {
    RebuildLeft(mem, src, dst, n, now, negcache, t, hi, anc);
    RebuildRight(mem, src, dst, n, now, negcache, t, hi, anc);
  }

  /** nc_rebuild below the head: move the recent entries of the part n tops to dst, releasing each node once. */
  method RebuildNode(mem: Memory, src: Trie, dst: Trie, n: Node, now: int, negcache: int,
                     ghost t: Tree, ghost hi: nat, ghost anc: set<nat>)
    requires Ready(mem, src, dst, t, hi, anc) && t.Down? && n == src.at[t.key]
    modifies mem, dst, dst.nodes
    ensures mem.released == old(mem.released) + NodesOf(src, Downs(t))
    ensures dst.Valid() && dst.Grew() && dst.head.seen == old(dst.head.seen)
    ensures dst.entries == old(dst.entries) + Kept(src.entries, Downs(t), now, negcache)
    decreases n.b, 4
  {
    SidesOf(src, t, hi, anc);
    RebuildWhole(mem, src, dst, n, now, negcache, t, hi, anc);
    KeptSplits(src.entries, old(dst.entries), t.key, Downs(t.left), Downs(t.right), now, negcache);
    NodesSplit(src, old(mem.released), t.key, Downs(t.left), Downs(t.right));
  }

  /** Both sides of n, then n itself. */
  method RebuildWhole(mem: Memory, src: Trie, dst: Trie, n: Node, now: int, negcache: int,
                      ghost t: Tree, ghost hi: nat, ghost anc: set<nat>)
    requires Ready(mem, src, dst, t, hi, anc) && t.Down? && n == src.at[t.key] && n.ip == t.key
    modifies mem, dst, dst.nodes
    ensures mem.released == old(mem.released) + NodesOf(src, Downs(t.left)) + NodesOf(src, Downs(t.right)) + {n}
    ensures dst.Valid() && dst.Grew() && dst.head.seen == old(dst.head.seen)
    ensures dst.entries == old(dst.entries) + Kept(src.entries, Downs(t.left), now, negcache)
                                            + Kept(src.entries, Downs(t.right), now, negcache)
                           + if now - src.entries[t.key] < negcache then map[t.key := src.entries[t.key]] else map[]
    decreases n.b, 3
  {
    assert n.ip != 0 && n.seen == src.entries[t.key];
    RebuildSides(mem, src, dst, n, now, negcache, t, hi, anc);
    assert dst.nodes !! src.nodes && n in src.nodes;
    KeepOrDrop(mem, dst, n, now, negcache);
  }

  /** nc_rebuild from the head: an empty trie has nothing to move. */
  method RebuildAll(mem: Memory, src: Trie, dst: Trie, now: int, negcache: int)
    requires src.Valid() && mem.released !! src.nodes
    requires dst.Valid() && dst.nodes !! src.nodes && src != dst && dst.maxb == src.maxb
    modifies mem, dst, dst.nodes
    ensures mem.released == old(mem.released) + NodesOf(src, src.entries.Keys)
    ensures dst.Valid() && dst.Grew() && dst.head.seen == old(dst.head.seen)
    ensures dst.entries == old(dst.entries) + Kept(src.entries, src.entries.Keys, now, negcache)
  {
    RootIsReady(mem, src, dst);
    var n := src.head.l;
    if n != src.head {
      RebuildNode(mem, src, dst, n, now, negcache, src.tree, src.maxb, {0});
    }
  }

  lemma RootIsReady(mem: Memory, src: Trie, dst: Trie)
    requires src.Valid() && mem.released !! src.nodes
    requires dst.Valid() && dst.nodes !! src.nodes && src != dst && dst.maxb == src.maxb
    ensures src.entries.Keys == Downs(src.tree)
    ensures src.tree.key in src.at && src.head.l == src.at[src.tree.key]
    ensures src.head.l != src.head <==> src.tree.Down?
    ensures Ready(mem, src, dst, src.tree, src.maxb, {0})
  {
    assert Stores(0, src.cells, src.at);
    SoundKeys(src.tree, src.maxb, src.cells);
    src.OwnNode(0);
  }

  /** A new trie with the recent entries of src; all of src but its head is released. */
  method Renew(mem: Memory, src: Trie, now: int, negcache: int) returns (dst: Trie)
    requires src.Valid() && mem.released !! src.nodes
    modifies mem
    ensures fresh(dst) && dst.Valid() && fresh(dst.nodes) && dst.maxb == src.maxb && dst.head.seen == 0
    ensures dst.entries == Rebuilt(src.entries, now, negcache)
    ensures mem.released == old(mem.released) + NodesOf(src, src.entries.Keys)
    ensures forall n | n in dst.nodes :: n !in mem.released
  {
    dst := new Trie(src.maxb);
    KeptAll(src.entries, dst.entries, now, negcache);
    RebuildAll(mem, src, dst, now, negcache);
  }

  /** Keeping the recent entries of a whole trie in an empty one is the rebuilt map. */
  lemma KeptAll(entries: Entries, into: Entries, now: int, negcache: int)
    requires into == map[]
    ensures into + Kept(entries, entries.Keys, now, negcache) == Rebuilt(entries, now, negcache)
  {
  }

  /** The same, with the old head released as well. */
  method Replace(mem: Memory, src: Trie, now: int, negcache: int) returns (dst: Trie)
    requires src.Valid() && mem.released !! src.nodes
    modifies mem
    ensures fresh(dst) && dst.Valid() && fresh(dst.nodes) && dst.maxb == src.maxb && dst.head.seen == 0
    ensures dst.entries == Rebuilt(src.entries, now, negcache)
    ensures mem.released == old(mem.released) + NodesOf(src, src.entries.Keys) + {src.head}
    ensures forall n | n in dst.nodes :: n !in mem.released
  {
    src.HeadApart();
    dst := Renew(mem, src, now, negcache);
    assert src.head !in mem.released && src.head !in dst.nodes;
    mem.Free(src.head);
  }

  /** A trie and its nodes. */
  ghost function Footprint(trie: Trie): (own: set<object>)
    requires trie.Valid()
    reads trie, trie.nodes
    ensures trie in own && trie.nodes <= own && trie.head in own
    ensures forall o | o in own :: o == trie || o in trie.nodes
  {
    {trie} + trie.nodes
  }

  /** The cache as the rest of the program uses it. */
  class Cache {
    var trie: Trie
    const mem: Memory
    /** The allocator, the trie and its nodes. */
    ghost var own: set<object>

    ghost predicate Valid()
      reads this, own
    {
      && this !in own && mem in own && trie in own && trie.nodes <= own && trie.head in own
      && trie.Valid() && mem.released !! trie.nodes
    }

    /** What is owned now was owned before, or is new. */
    twostate predicate Grew()
      reads this
    {
      forall o | o in own :: o in old(own) || fresh(o)
    }

    constructor (maxb: nat)
      ensures Valid() && fresh(own)
      ensures trie.maxb == maxb && trie.entries == map[] && trie.head.seen == 0
    {
      trie := new Trie(maxb);
      mem := new Memory();
      new;
      assert trie.Valid() && mem.released == {};
      own := {mem} + Footprint(trie);
    }

    /** check_neg_cache: a hit is an address seen at most negcache seconds ago (the head stands for address 0). */
    method Check(ip: nat, now: int, negcache: int) returns (n: Node?)
      requires Valid()
      ensures ip != 0 ==> (n != null <==> Hit(trie.entries, ip, now, negcache))
      ensures ip == 0 ==> (n != null <==> negcache > 0 && now - trie.head.seen <= negcache)
      ensures n != null ==> n.ip == ip
    {
      if negcache <= 0 {
        return null;
      }
      ghost var tests;
      n, tests := trie.Search(ip);
      if n != null && now - n.seen > negcache {
        n := null;
      }
    }

    /** negcache_insert: remember an address that parsed, with the time; an invalid one is ignored. */
    method Insert(address: Option<nat>, now: int)
      requires Valid() && (address.Some? ==> address.value < Pow2(trie.maxb))
      modifies this`own, own
      ensures Valid() && Grew() && trie == old(trie)
      ensures trie.entries == Inserted(old(trie.entries), address, now)
      ensures trie.head.seen == ZeroSeen(old(trie.head.seen), address, now)
    {
      if address.Some? {
        trie.Put(address.value, now);
        own := own + trie.nodes;
      }
    }

    /** negcache_rebuild: a new trie holds exactly the recent entries, and every old node is released. */
    method Rebuild(now: int, negcache: int)
      requires Valid()
      modifies this, mem
      ensures Valid() && Grew() && fresh(trie) && trie.maxb == old(trie.maxb)
      ensures trie.entries == Rebuilt(old(trie.entries), now, negcache) && trie.head.seen == 0
      ensures mem.released == old(mem.released + NodesOf(trie, trie.entries.Keys) + {trie.head})
    {
      var dst := Replace(mem, trie, now, negcache);
      assert forall o | o in Footprint(dst) :: fresh(o);
      Install(dst);
    }

    method Install(dst: Trie)
      requires dst.Valid() && mem.released !! dst.nodes && mem in own && this !in own && this !in Footprint(dst)
      modifies this
      ensures Valid() && trie == dst && own == old(own) + Footprint(dst)
    {
      trie, own := dst, own + Footprint(dst);
    }
  }

  // ---- The cache as a map ----

  /** Whether a check at time t finds ip. */
  predicate Hit(entries: Entries, ip: nat, t: int, negcache: int) {
    negcache > 0 && ip in entries && t - entries[ip] <= negcache
  }

  function Inserted(entries: Entries, address: Option<nat>, now: int): Entries {
    if address.Some? && address.value != 0 then entries[address.value := now] else entries
  }

  /** The head's time: address 0 stamps it. */
  function ZeroSeen(zero: int, address: Option<nat>, now: int): int {
    if address == Some(0) then now else zero
  }

  function Rebuilt(entries: Entries, now: int, negcache: int): Entries {
    map k | k in entries && now - entries[k] < negcache :: entries[k]
  }

  /**
   A rebuild can change the answer of no check but one made in the same second, and then only for
   an entry whose age is exactly negcache.
   */
  lemma {:induction false} RebuildVisibleExactly(entries: Entries, now: int, negcache: int, ip: nat, t: int)
    requires t >= now
    ensures Hit(Rebuilt(entries, now, negcache), ip, t, negcache) != Hit(entries, ip, t, negcache)
            <==> t == now && negcache > 0 && ip in entries && now - entries[ip] == negcache
  {
  }

  /** A check in the second of a rebuild may find an address before it and miss it after. */
  lemma {:induction false} RebuildVisibleExample()
    ensures var entries := map[5 := 100];
            Hit(entries, 5, 200, 100) && !Hit(Rebuilt(entries, 200, 100), 5, 200, 100)
  {
    assert 5 !in Rebuilt(map[5 := 100], 200, 100);
  }

  datatype CacheOp = Insertion(address: Option<nat>, at: int) | Rebuilding(at: int)

  function Run(ops: seq<CacheOp>, negcache: int): Entries {
    if ops == [] then map[]
    else
      var entries := Run(ops[..|ops| - 1], negcache);
      match ops[|ops| - 1]
      case Insertion(address, now) => Inserted(entries, address, now)
      case Rebuilding(now) => Rebuilt(entries, now, negcache)
  }

  /** When ip was last inserted. */
  function LastInserted(ops: seq<CacheOp>, ip: nat): Option<int> {
    if ops == [] then None
    else
      match ops[|ops| - 1]
      case Insertion(address, now) =>
        if address == Some(ip) then Some(now) else LastInserted(ops[..|ops| - 1], ip)
      case Rebuilding(_) => LastInserted(ops[..|ops| - 1], ip)
  }

  /** Through any run of insertions and rebuilds, a later check only sees when ip was last inserted. */
  lemma {:induction false} RunRemembersLastInsertion(ops: seq<CacheOp>, negcache: int, ip: nat, t: int)
    requires ip != 0
    requires forall i | 0 <= i < |ops| :: ops[i].at < t
    ensures var last := LastInserted(ops, ip);
            Hit(Run(ops, negcache), ip, t, negcache) <==> negcache > 0 && last.Some? && t - last.value <= negcache
  {
    if ops != [] {
      RunRemembersLastInsertion(ops[..|ops| - 1], negcache, ip, t);
    }
  }
}
