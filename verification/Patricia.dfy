/**
 The shape of a PATRICIA trie as a value.

 Every link of the trie either leads down to a node that tests a lower bit, or back up to the
 node itself or one of its ancestors. `Down` is a link of the first kind, `Up` one of the
 second; a node is named by the address it stores.
 */
module Patricia {
  import opened Bits

  datatype Tree =
    | Up(key: nat)
    | Down(key: nat, b: nat, left: Tree, right: Tree)

  /** What one node stores: the bit it tests and the nodes its two links lead to. */
  datatype Cell = Cell(b: nat, l: nat, r: nat)

  ghost function Ups(t: Tree): set<nat> {
    match t
    case Up(k) => {k}
    case Down(_, _, l, r) => Ups(l) + Ups(r)
  }

  ghost function Downs(t: Tree): set<nat> {
    match t
    case Up(_) => {}
    case Down(k, _, l, r) => {k} + Downs(l) + Downs(r)
  }

  /** How many up-links lead to k. */
  ghost function UpLinks(t: Tree, k: nat): nat {
    match t
    case Up(k') => if k == k' then 1 else 0
    case Down(_, _, l, r) => UpLinks(l, k) + UpLinks(r, k)
  }

  ghost predicate SameAbove(x: nat, y: nat, b: nat) {
    forall j: nat | j > b :: Bit(x, j) == Bit(y, j)
  }

  ghost predicate AgreeAbove(keys: set<nat>, b: nat) {
    forall x, y | x in keys && y in keys :: SameAbove(x, y, b)
  }

  ghost predicate AllBit(keys: set<nat>, b: nat, v: nat) {
    forall x | x in keys :: Bit(x, b) == v
  }

  /**
   The PATRICIA shape below a node that tests bit hi and whose ancestors (itself included) are anc:
   down-links test strictly lower bits, up-links lead to the node itself or an ancestor, the
   addresses under a node agree on every bit above the one it tests and are split by that one,
   and each node's own address is found under it.
   */
  ghost predicate Shaped(t: Tree, hi: nat, anc: set<nat>) {
    match t
    case Up(k) => k in anc
    case Down(k, b, l, r) =>
      && b < hi
      && k !in anc
      && Shaped(l, b, anc + {k})
      && Shaped(r, b, anc + {k})
      && Downs(l) !! Downs(r)
      && AllBit(Ups(l), b, 0)
      && AllBit(Ups(r), b, 1)
      && AgreeAbove(Ups(t), b)
      && k in Ups(t)
  }

  /** The link followed from a node that tests bit b. */
  ghost function Side(ip: nat, t: Tree): Tree
    requires t.Down?
  {
    if Bit(ip, t.b) == 1 then t.right else t.left
  }

  /** Where a bit-by-bit descent for ip ends, and how many bits it tests on the way. */
  ghost function Lookup(t: Tree, ip: nat): nat {
    if t.Up? then t.key else Lookup(Side(ip, t), ip)
  }

  ghost function Tests(t: Tree, ip: nat): nat {
    if t.Up? then 0 else 1 + Tests(Side(ip, t), ip)
  }

  /** The addresses a shaped subtree leads to are its own nodes' and one ancestor's. */
  lemma {:induction false} UpsWithinReach(t: Tree, hi: nat, anc: set<nat>)
    requires Shaped(t, hi, anc)
    ensures Downs(t) <= Ups(t) <= Downs(t) + anc
    ensures Downs(t) !! anc
  {
    if t.Down? {
      UpsWithinReach(t.left, t.b, anc + {t.key});
      UpsWithinReach(t.right, t.b, anc + {t.key});
    }
  }

  lemma {:induction false} LookupReachesLeaf(t: Tree, ip: nat)
    ensures Lookup(t, ip) in Ups(t)
  {
    if t.Down? { LookupReachesLeaf(Side(ip, t), ip); }
  }

  /** The search theorem: a descent for ip finds ip exactly when some link leads to ip. */
  lemma {:induction false} LookupFinds(t: Tree, hi: nat, anc: set<nat>, ip: nat)
    requires Shaped(t, hi, anc)
    ensures Lookup(t, ip) == ip <==> ip in Ups(t)
  {
    LookupReachesLeaf(t, ip);
    if t.Down? && ip in Ups(t) {
      assert ip in Ups(Side(ip, t));
      LookupFinds(Side(ip, t), t.b, anc + {t.key}, ip);
    }
  }

  /** A descent tests at most as many bits as there are bit positions left, and as there are nodes. */
  lemma {:induction false} TestsBounded(t: Tree, hi: nat, anc: set<nat>, ip: nat)
    requires Shaped(t, hi, anc)
    ensures Tests(t, ip) <= hi
    ensures Tests(t, ip) <= |Downs(t)|
  {
    if t.Down? {
      var s := Side(ip, t);
      TestsBounded(s, t.b, anc + {t.key}, ip);
      UpsWithinReach(s, t.b, anc + {t.key});
      SubsetSize({t.key} + Downs(s), Downs(t));
    }
  }

  lemma {:induction false} SubsetSize(a: set<nat>, b: set<nat>)
    requires a <= b
    ensures |a| <= |b|
  {
    if a != {} {
      var x :| x in a;
      SubsetSize(a - {x}, b - {x});
    }
  }

  /** Each address is the target of exactly one up-link. */
  lemma {:induction false} OneUpLinkEach(t: Tree, hi: nat, anc: set<nat>, k: nat)
    requires Shaped(t, hi, anc)
    ensures UpLinks(t, k) == if k in Ups(t) then 1 else 0
  {
    if t.Down? {
      OneUpLinkEach(t.left, t.b, anc + {t.key}, k);
      OneUpLinkEach(t.right, t.b, anc + {t.key}, k);
    }
  }

  /**
   Insertion: descend for ip past every node that tests a bit above i, and put the new node on
   the link found there.
   */
  ghost function Splice(t: Tree, ip: nat, i: nat): Tree {
    if t.Down? && t.b > i then
      if Bit(ip, t.b) == 1 then t.(right := Splice(t.right, ip, i)) else t.(left := Splice(t.left, ip, i))
    else if Bit(ip, i) == 1 then Down(ip, i, t, Up(ip))
    else Down(ip, i, Up(ip), t)
  }

  /** i is the highest bit in which x and y differ. */
  ghost predicate HighestDifference(x: nat, y: nat, i: nat) {
    Bit(x, i) != Bit(y, i) && SameAbove(x, y, i)
  }

  /** A shape can be hung below a lower bit as long as its root tests a still lower one. */
  lemma {:induction false} ShapedBelow(t: Tree, hi: nat, anc: set<nat>, hi': nat, anc': set<nat>)
    requires Shaped(t, hi, anc)
    requires t.Down? ==> t.b < hi'
    requires anc <= anc' && anc' !! Downs(t)
    ensures Shaped(t, hi', anc')
  {
    if t.Down? {
      UpsWithinReach(t.left, t.b, anc + {t.key});
      UpsWithinReach(t.right, t.b, anc + {t.key});
      ShapedBelow(t.left, t.b, anc + {t.key}, t.b, anc' + {t.key});
      ShapedBelow(t.right, t.b, anc + {t.key}, t.b, anc' + {t.key});
    }
  }

  /** The subtree in which the new node lands is uniform in bit i and above. */
  lemma {:induction false} SpliceSpot(t: Tree, hi: nat, anc: set<nat>, ip: nat, i: nat)
    requires Shaped(t, hi, anc)
    requires HighestDifference(Lookup(t, ip), ip, i)
    requires t.Down? ==> t.b <= i
    ensures t.Down? ==> t.b < i
    ensures forall x, j: nat | x in Ups(t) && j >= i :: Bit(x, j) == Bit(Lookup(t, ip), j)
  {
    LookupReachesLeaf(t, ip);
    if t.Down? {
      LookupReachesLeaf(Side(ip, t), ip);
      assert Bit(Lookup(t, ip), t.b) == Bit(ip, t.b);
    }
  }

  /** Insertion keeps the PATRICIA shape and adds exactly one address and one node. */
  lemma {:induction false} SpliceShaped(t: Tree, hi: nat, anc: set<nat>, ip: nat, i: nat)
    requires Shaped(t, hi, anc) && i < hi
    requires ip !in anc && ip !in Downs(t)
    requires HighestDifference(Lookup(t, ip), ip, i)
    ensures Shaped(Splice(t, ip, i), hi, anc)
    ensures Ups(Splice(t, ip, i)) == Ups(t) + {ip}
    ensures Downs(Splice(t, ip, i)) == Downs(t) + {ip}
  {
    if t.Down? && t.b > i {
      UpsWithinReach(t, hi, anc);
      LookupReachesLeaf(t, ip);
      SpliceShaped(Side(ip, t), t.b, anc + {t.key}, ip, i);
      AgreeAboveExtends(Ups(t), t.b, Lookup(t, ip), ip);
    } else {
      SpliceHere(t, hi, anc, ip, i);
    }
  }

  /** The new node goes on top of what is here. */
  lemma SpliceHere(t: Tree, hi: nat, anc: set<nat>, ip: nat, i: nat)
    requires Shaped(t, hi, anc) && i < hi
    requires ip !in anc && ip !in Downs(t)
    requires HighestDifference(Lookup(t, ip), ip, i)
    requires t.Down? ==> t.b <= i
    ensures Shaped(Splice(t, ip, i), hi, anc)
    ensures Ups(Splice(t, ip, i)) == Ups(t) + {ip}
    ensures Downs(Splice(t, ip, i)) == Downs(t) + {ip}
  {
    UpsWithinReach(t, hi, anc);
    LookupReachesLeaf(t, ip);
    SpliceSpot(t, hi, anc, ip, i);
    ShapedBelow(t, hi, anc, i, anc + {ip});
    AgreeAboveExtends(Ups(t), i, Lookup(t, ip), ip);
  }

  lemma AgreeAboveExtends(keys: set<nat>, b: nat, d: nat, ip: nat)
    requires AgreeAbove(keys, b) && d in keys
    requires SameAbove(d, ip, b)
    ensures AgreeAbove(keys + {ip}, b)
  {
    forall x, y | x in keys + {ip} && y in keys + {ip}
      ensures SameAbove(x, y, b)
    {
      assert SameAbove(d, d, b);
      assert x != ip ==> SameAbove(d, x, b);
      assert y != ip ==> SameAbove(d, y, b);
    }
  }

  // ---- The trie as a flat table of nodes ----

  type Table = map<nat, Cell>

  /** The table lists every node of t, with the links t gives it. */
  ghost predicate Listed(t: Tree, cells: Table) {
    t.Down? ==>
      && t.key in cells
      && cells[t.key] == Cell(t.b, t.left.key, t.right.key)
      && Listed(t.left, cells)
      && Listed(t.right, cells)
  }

  /** No address names two nodes. */
  ghost predicate Distinct(t: Tree) {
    t.Down? ==>
      && t.key !in Downs(t.left) + Downs(t.right)
      && Downs(t.left) !! Downs(t.right)
      && Distinct(t.left)
      && Distinct(t.right)
  }

  lemma {:induction false} ShapedDistinct(t: Tree, hi: nat, anc: set<nat>)
    requires Shaped(t, hi, anc)
    ensures Distinct(t)
  {
    if t.Down? {
      ShapedDistinct(t.left, t.b, anc + {t.key});
      ShapedDistinct(t.right, t.b, anc + {t.key});
      UpsWithinReach(t.left, t.b, anc + {t.key});
      UpsWithinReach(t.right, t.b, anc + {t.key});
    }
  }

  lemma {:induction false} ListedElsewhere(t: Tree, cells: Table, cells': Table)
    requires Listed(t, cells)
    requires forall k | k in Downs(t) && k in cells :: k in cells' && cells'[k] == cells[k]
    ensures Listed(t, cells')
  {
    if t.Down? {
      ListedElsewhere(t.left, cells, cells');
      ListedElsewhere(t.right, cells, cells');
    }
  }

  /** The node whose link the new node takes over (p for the link that leads to t itself). */
  ghost function SpliceParent(t: Tree, ip: nat, i: nat, p: nat): nat {
    if t.Down? && t.b > i then SpliceParent(Side(ip, t), ip, i, t.key) else p
  }

  /** The node that link led to. */
  ghost function SpliceTarget(t: Tree, ip: nat, i: nat): nat {
    if t.Down? && t.b > i then SpliceTarget(Side(ip, t), ip, i) else t.key
  }

  ghost function NewCell(ip: nat, i: nat, target: nat): Cell {
    if Bit(ip, i) == 1 then Cell(i, target, ip) else Cell(i, ip, target)
  }

  ghost function Relinked(c: Cell, ip: nat): Cell {
    if Bit(ip, c.b) == 1 then c.(r := ip) else c.(l := ip)
  }

  lemma {:induction false} SpliceParentWithin(t: Tree, ip: nat, i: nat, p: nat)
    ensures SpliceParent(t, ip, i, p) in Downs(t) + {p}
    ensures t.Down? && t.b > i ==> SpliceParent(t, ip, i, p) in Downs(t)
  {
    if t.Down? && t.b > i { SpliceParentWithin(Side(ip, t), ip, i, t.key); }
  }

  /** In the table, a splice adds one node and changes one link of one other node. */
  lemma {:induction false} SpliceListed(t: Tree, ip: nat, i: nat, p: nat, cells: Table, cells': Table)
    requires Distinct(t) && Listed(t, cells)
    requires ip !in Downs(t) && p !in Downs(t)
    requires ip in cells' && cells'[ip] == NewCell(ip, i, SpliceTarget(t, ip, i))
    requires forall k | k in Downs(t) && k in cells ::
               && k in cells'
               && cells'[k] == if k == SpliceParent(t, ip, i, p) then Relinked(cells[k], ip) else cells[k]
    ensures Listed(Splice(t, ip, i), cells')
  {
    SpliceParentWithin(t, ip, i, p);
    if t.Down? && t.b > i {
      var s := Side(ip, t);
      SpliceParentWithin(s, ip, i, t.key);
      SpliceListed(s, ip, i, t.key, cells, cells');
      ListedElsewhere(if s == t.left && Bit(ip, t.b) == 0 then t.right else t.left, cells, cells');
    } else {
      ListedElsewhere(t, cells, cells');
    }
  }
}
