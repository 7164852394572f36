/** The forwarder's session tree: linked `Session` nodes in the heap, ordered by reversed `memcmp`. */
module SessionTree {
  import opened Keys

  /** One client of the forwarder (`struct _Session`). The address and the upstream socket never change. */
  class Session {
    const key: Key
    const fd: nat
    var active: bool
    var started: bool
    var left: Session?
    var right: Session?
    var parent: Session?

    constructor (key: Key, fd: nat)
      ensures this.key == key && this.fd == fd && !active && !started
      ensures left == null && right == null && parent == null
    {
      this.key, this.fd, active, started := key, fd, false, false;
      left, right, parent := null, null, null;
    }
  }

  // ----- the shape of a tree, and a place in it -----

  datatype Shape = Nil | Fork(left: Shape, s: Session, right: Shape)

  /** The way from a hole up to the root. `InLeft(up, s, r)`: the hole is the left child of `s`. */
  datatype Path =
    | Top
    | InLeft(up: Path, s: Session, right: Shape)
    | InRight(up: Path, left: Shape, s: Session)

  ghost function Objs(t: Shape): set<Session> {
    match t
    case Nil => {}
    case Fork(l, s, r) => Objs(l) + {s} + Objs(r)
  }

  ghost function PathObjs(p: Path): set<Session> {
    match p
    case Top => {}
    case InLeft(up, s, r) => PathObjs(up) + {s} + Objs(r)
    case InRight(up, l, s) => PathObjs(up) + Objs(l) + {s}
  }

  ghost function InOrder(t: Shape): seq<Session> {
    match t
    case Nil => []
    case Fork(l, s, r) => InOrder(l) + [s] + InOrder(r)
  }

  ghost function Plug(p: Path, t: Shape): Shape {
    match p
    case Top => t
    case InLeft(up, s, r) => Plug(up, Fork(t, s, r))
    case InRight(up, l, s) => Plug(up, Fork(l, s, t))
  }

  ghost function Before(p: Path): seq<Session> {
    match p
    case Top => []
    case InLeft(up, s, r) => Before(up)
    case InRight(up, l, s) => Before(up) + InOrder(l) + [s]
  }

  ghost function After(p: Path): seq<Session> {
    match p
    case Top => []
    case InLeft(up, s, r) => [s] + InOrder(r) + After(up)
    case InRight(up, l, s) => After(up)
  }

  lemma {:induction false} PlugOrder(p: Path, t: Shape)
    ensures InOrder(Plug(p, t)) == Before(p) + InOrder(t) + After(p)
  {
    match p
    case Top =>
    case InLeft(up, s, r) => PlugOrder(up, Fork(t, s, r));
    case InRight(up, l, s) => PlugOrder(up, Fork(l, s, t));
  }

  lemma {:induction false} OrderObjs(t: Shape)
    ensures Objs(t) == set s | s in InOrder(t)
  {
    match t
    case Nil =>
    case Fork(l, s, r) => OrderObjs(l); OrderObjs(r);
  }

  /** Every node of a tree is the root of the subtree at some hole. */
  lemma {:induction false} Focus(up: Path, t: Shape, s: Session) returns (p: Path, l: Shape, r: Shape)
    requires s in Objs(t)
    ensures Plug(p, Fork(l, s, r)) == Plug(up, t)
    decreases t
  {
    if t.s == s {
      p, l, r := up, t.left, t.right;
    } else if s in Objs(t.left) {
      p, l, r := Focus(InLeft(up, t.s, t.right), t.left, s);
    } else {
      p, l, r := Focus(InRight(up, t.left, t.s), t.right, s);
    }
  }

  // ----- no node occurs twice -----

  ghost predicate Distinct(t: Shape) {
    t.Fork? ==>
      && t.s !in Objs(t.left) + Objs(t.right) && Objs(t.left) !! Objs(t.right)
      && Distinct(t.left) && Distinct(t.right)
  }

  ghost predicate PathDistinct(p: Path) {
    match p
    case Top => true
    case InLeft(up, s, r) =>
      PathDistinct(up) && Distinct(r) && s !in PathObjs(up) + Objs(r) && PathObjs(up) !! Objs(r)
    case InRight(up, l, s) =>
      PathDistinct(up) && Distinct(l) && s !in PathObjs(up) + Objs(l) && PathObjs(up) !! Objs(l)
  }

  lemma {:induction false} PlugDistinct(p: Path, t: Shape)
    ensures Distinct(Plug(p, t)) <==> PathDistinct(p) && Distinct(t) && PathObjs(p) !! Objs(t)
    ensures Objs(Plug(p, t)) == PathObjs(p) + Objs(t)
  {
    match p
    case Top =>
    case InLeft(up, s, r) => PlugDistinct(up, Fork(t, s, r));
    case InRight(up, l, s) => PlugDistinct(up, Fork(l, s, t));
  }

  // ----- the order: larger keys to the left -----

  /** The in-order sequence of a tree: keys of one length, strictly falling. */
  ghost predicate Falling(xs: seq<Session>, klen: nat) {
    && (forall i :: 0 <= i < |xs| ==> |xs[i].key| == klen)
    && forall i, j :: 0 <= i < j < |xs| ==> Rank(xs[i].key) > Rank(xs[j].key)
  }

  lemma FallingParts(a: seq<Session>, b: seq<Session>, klen: nat)
    requires Falling(a + b, klen)
    ensures Falling(a, klen) && Falling(b, klen)
    ensures forall i, j :: 0 <= i < |a| && 0 <= j < |b| ==> Rank(a[i].key) > Rank(b[j].key)
  {
    var xs := a + b;
    assert forall i :: 0 <= i < |a| ==> a[i] == xs[i];
    assert forall j :: 0 <= j < |b| ==> b[j] == xs[|a| + j];
  }

  lemma FallingApart(a: seq<Session>, b: seq<Session>, klen: nat)
    requires Falling(a + b, klen)
    ensures Falling(a, klen) && Falling(b, klen)
    ensures forall s <- a :: s !in b
  {
    FallingParts(a, b, klen);
  }

  lemma {:induction false} FallingDistinct(t: Shape, klen: nat)
    requires Falling(InOrder(t), klen)
    ensures Distinct(t)
  {
    match t
    case Nil =>
    case Fork(l, s, r) =>
      var a, b := InOrder(l), InOrder(r);
      assert InOrder(t) == a + [s] + b;
      FallingApart(a + [s], b, klen);
      FallingApart(a, [s], klen);
      FallingDistinct(l, klen);
      FallingDistinct(r, klen);
      OrderObjs(l);
      OrderObjs(r);
      assert s !in b by { assert (a + [s])[|a|] == s; }
      forall x | x in Objs(l) ensures x !in Objs(r) && x != s {
        assert x in a;
        assert x in a + [s];
      }
  }

  /** What the tree means: the map from client address to session. */
  ghost function Table(xs: seq<Session>, klen: nat): (m: map<Key, Session>)
    requires Falling(xs, klen)
    ensures forall s <- xs :: s.key in m && m[s.key] == s
    ensures forall k <- m :: m[k] in xs && m[k].key == k
  {
    map s | s in xs :: s.key := s
  }

  // ----- the heap holds a shape -----

  ghost predicate Linked(t: Shape, n: Session?, p: Session?)
    reads Objs(t)`left, Objs(t)`right, Objs(t)`parent
  {
    match t
    case Nil => n == null
    case Fork(l, s, r) => n == s && s.parent == p && Linked(l, s.left, s) && Linked(r, s.right, s)
  }

  /** The nodes around a hole are linked up to `root`; the hole holds `n` and lies below `par`. */
  ghost predicate PathLinked(p: Path, root: Session?, n: Session?, par: Session?)
    reads PathObjs(p)`left, PathObjs(p)`right, PathObjs(p)`parent
  {
    match p
    case Top => root == n && par == null
    case InLeft(up, s, r) =>
      par == s && s.left == n && Linked(r, s.right, s) && PathLinked(up, root, s, s.parent)
    case InRight(up, l, s) =>
      par == s && s.right == n && Linked(l, s.left, s) && PathLinked(up, root, s, s.parent)
  }

  lemma {:induction false} Unplug(p: Path, t: Shape, root: Session?) returns (n: Session?, par: Session?)
    requires Linked(Plug(p, t), root, null)
    ensures Linked(t, n, par) && PathLinked(p, root, n, par)
  {
    match p
    case Top => n, par := root, null;
    case InLeft(up, s, r) =>
      var _, _ := Unplug(up, Fork(t, s, r), root);
      n, par := s.left, s;
    case InRight(up, l, s) =>
      var _, _ := Unplug(up, Fork(l, s, t), root);
      n, par := s.right, s;
  }

  lemma {:induction false} Replug(p: Path, t: Shape, root: Session?, n: Session?, par: Session?)
    requires Linked(t, n, par) && PathLinked(p, root, n, par)
    ensures Linked(Plug(p, t), root, null)
  {
    match p
    case Top =>
    case InLeft(up, s, r) => Replug(up, Fork(t, s, r), root, s, s.parent);
    case InRight(up, l, s) => Replug(up, Fork(l, s, t), root, s, s.parent);
  }

  ghost predicate Above(xs: seq<Session>, k: Key) {
    forall i :: 0 <= i < |xs| ==> Rank(xs[i].key) > Rank(k)
  }

  ghost predicate Below(xs: seq<Session>, k: Key) {
    forall i :: 0 <= i < |xs| ==> Rank(xs[i].key) < Rank(k)
  }

  /** The descent for `k` has gone this way: larger keys lie before the hole, smaller ones after it. */
  ghost predicate Around(p: Path, k: Key) {
    Above(Before(p), k) && Below(After(p), k)
  }

  /** A node splits the in-order sequence into what is larger and what is smaller. */
  lemma Pivot(x: seq<Session>, s: Session, y: seq<Session>, klen: nat)
    requires Falling(x + [s] + y, klen)
    ensures |s.key| == klen && s in x + [s] + y
    ensures forall k: Key :: Rank(s.key) < Rank(k) ==> Below([s] + y, k)
    ensures forall k: Key :: Rank(s.key) > Rank(k) ==> Above(x + [s], k)
  {
    var xs := x + [s] + y;
    assert xs[|x|] == s;
    assert forall i :: 0 <= i < |x| ==> x[i] == xs[i];
    assert forall i :: 0 <= i < |y| ==> y[i] == xs[|x| + 1 + i];
  }

  lemma {:induction false} NodeOrder(p: Path, l: Shape, s: Session, r: Shape)
    ensures InOrder(Plug(p, Fork(l, s, r))) == (Before(p) + InOrder(l)) + [s] + (InOrder(r) + After(p))
    ensures After(InLeft(p, s, r)) == [s] + (InOrder(r) + After(p))
    ensures Before(InRight(p, l, s)) == (Before(p) + InOrder(l)) + [s]
  {
    hide Plug;
    PlugOrder(p, Fork(l, s, r));
    Regroup(Before(p), InOrder(l), [s], InOrder(r), After(p));
  }

  lemma Regroup<T>(a: seq<T>, b: seq<T>, x: seq<T>, c: seq<T>, d: seq<T>)
    ensures a + (b + x + c) + d == (a + b) + x + (c + d)
    ensures a + b + x == (a + b) + x && x + c + d == x + (c + d)
  {}

  /** One descent step: `memcmp` below zero goes left, above zero goes right. */
  lemma {:induction false} Steer(p: Path, t: Shape, k: Key, klen: nat)
    requires t.Fork? && Falling(InOrder(Plug(p, t)), klen) && Around(p, k)
    ensures Rank(t.s.key) < Rank(k) ==> Around(InLeft(p, t.s, t.right), k)
    ensures Rank(t.s.key) > Rank(k) ==> Around(InRight(p, t.left, t.s), k)
    ensures t.s in InOrder(Plug(p, t)) && |t.s.key| == klen
  {
    NodeOrder(p, t.left, t.s, t.right);
    Pivot(Before(p) + InOrder(t.left), t.s, InOrder(t.right) + After(p), klen);
  }

  /** A descent that ends at an empty hole proves the key absent. */
  lemma {:induction false} Absent(p: Path, k: Key)
    requires Around(p, k)
    ensures forall s <- InOrder(Plug(p, Nil)) :: s.key != k
  {
    PlugOrder(p, Nil);
  }

  class Tree {
    ghost const klen: nat
    var root: Session?
    ghost var shape: Shape
    ghost var order: seq<Session>
    ghost var nodes: set<Session>
    ghost var table: map<Key, Session>

    ghost predicate Valid()
      reads this, nodes`left, nodes`right, nodes`parent
    {
      && nodes == Objs(shape) && Linked(shape, root, null)
      && order == InOrder(shape)
      && Falling(order, klen) && table == Table(order, klen)
    }

    constructor (klen: nat)
      ensures Valid() && nodes == {} && table == map[] && this.klen == klen
    {
      this.klen := klen;
      root := null;
      shape, order, nodes, table := Nil, [], {}, map[];
    }

    /** `session_find`. */
    method Find(saddr: Key) returns (s: Session?)
      requires Valid() && |saddr| == klen
      ensures Valid() && s == if saddr in table then table[saddr] else null
    {
      s := root;
      ghost var t, path := shape, Top;
      ghost var par: Session? := null;
      assert Around(Top, saddr);
      hide Around, Above, Below, Falling, InOrder, Before, After, Rank, Table;
      while s != null
        invariant Valid() && Linked(t, s, par) && Plug(path, t) == shape && Around(path, saddr)
        decreases t
      {
        Steer(path, t, saddr, klen);
        MemcmpIsRank(s.key, saddr);
        var res := Memcmp(s.key, saddr);
        par := s;
        if res < 0 {
          path, t := InLeft(path, t.s, t.right), t.left;
          s := s.left;
        } else if res > 0 {
          path, t := InRight(path, t.left, t.s), t.right;
          s := s.right;
        } else {
          return;
        }
      }
      Absent(path, saddr);
    }

    /** Replaces the child `old` of `par` (or the root) by `new`. */
    method Relink(par: Session?, old_: Session?, new_: Session?, onLeft: bool, ghost p: Path)
      requires PathLinked(p, root, old_, par) && PathDistinct(p)
      requires onLeft <==> p.InLeft?
      modifies this`root, (if par == null then {} else {par})`left, (if par == null then {} else {par})`right
      ensures PathLinked(p, root, new_, par)
      ensures par != null ==> root == old(root)
      ensures par != null && onLeft ==> par.left == new_ && par.right == old(par.right)
      ensures par != null && !onLeft ==> par.right == new_ && par.left == old(par.left)
    {
      if par == null {
        root := new_;
      } else if onLeft {
        par.left := new_;
      } else {
        par.right := new_;
      }
    }

    /** The descent of `session_add`. The key must be absent: at an equal key the loop would stay put. */
    method Descend(key: Key) returns (par: Session?, onLeft: bool, ghost path: Path)
      requires Valid() && |key| == klen && forall x <- order :: x.key != key
      ensures Plug(path, Nil) == shape && Around(path, key)
      ensures PathLinked(path, root, null, par) && (onLeft <==> path.InLeft?)
    {
      var n := root;
      par, onLeft, path := null, false, Top;
      ghost var t := shape;
      assert Around(Top, key);
      hide Around, Above, Below, Falling, InOrder, Before, After, Rank, Table;
      while n != null
        invariant Valid() && Linked(t, n, par) && Plug(path, t) == shape && Around(path, key)
        invariant onLeft <==> path.InLeft?
        invariant par == if path.Top? then null else path.s
        decreases t
      {
        Steer(path, t, key, klen);
        MemcmpIsRank(n.key, key);
        var res := Memcmp(n.key, key);
        par := n;
        if res < 0 {
          path, t, onLeft := InLeft(path, t.s, t.right), t.left, true;
          n := n.left;
        } else if res > 0 {
          path, t, onLeft := InRight(path, t.left, t.s), t.right, false;
          n := n.right;
        } else {
          assert false;
        }
      }
      var _, _ := Unplug(path, t, root);
    }

    /** `hev_rbtree_node_link`: hangs `s` into an empty hole. */
    method Attach(s: Session, par: Session?, onLeft: bool, ghost path: Path)
      requires PathLinked(path, root, null, par) && PathDistinct(path) && (onLeft <==> path.InLeft?)
      requires s !in PathObjs(path)
      modifies this`root, PathObjs(path)`left, PathObjs(path)`right, s`left, s`right, s`parent
      ensures Linked(Plug(path, Fork(Nil, s, Nil)), root, null)
    {
      s.left, s.right, s.parent := null, null, par;
      Relink(par, null, s, onLeft, path);
      Replug(path, Fork(Nil, s, Nil), root, s, par);
    }

    /** `session_add`, before the library rebalances. */
    method Link(s: Session)
      requires Valid() && |s.key| == klen && s.key !in table
      requires s !in nodes
      modifies this, nodes`left, nodes`right, s`left, s`right, s`parent
      ensures Valid() && table == old(table)[s.key := s]
      ensures nodes == old(nodes) + {s}
    {
      hide Falling, Table, Above, Below, InOrder, Objs, PathObjs, Plug;
      var par, onLeft, path := Descend(s.key);
      InsertShape(path, s, klen);
      Attach(s, par, onLeft, path);
      shape, nodes := Plug(path, Fork(Nil, s, Nil)), nodes + {s};
      order, table := InOrder(shape), table[s.key := s];
    }

    /** Puts the subtree under `n` below `p`. */
    static method Adopt(n: Session?, p: Session?, ghost t: Shape, ghost was: Session?)
      requires Linked(t, n, was) && Distinct(t)
      modifies (if n == null then {} else {n})`parent
      ensures Linked(t, n, p)
      ensures n != null ==> n in Objs(t)
    {
      if n != null {
        n.parent := p;
      }
    }

    /** `y`, the right child of `x`, becomes its parent. */
    static method SwingLeft(x: Session, y: Session, par: Session?, ghost a: Shape, ghost b: Shape, ghost c: Shape,
                            ghost all: set<Session>)
      requires {x, y} + Objs(a) + Objs(b) + Objs(c) <= all
      requires x.right == y && y.parent == x && Linked(a, x.left, x) && Linked(b, y.left, y) && Linked(c, y.right, y)
      requires x != y && {x, y} !! Objs(a) !! Objs(b) !! Objs(c) && Distinct(b)
      modifies {x, y}`left, {x, y}`right, {x, y}`parent, Objs(b)`parent
      ensures Linked(Fork(Fork(a, x, b), y, c), y, par)
    {
      hide Distinct, Linked, Objs;
      RootIn(b, y.left, y);
      x.right := y.left;
      Adopt(x.right, x, b, y);
      y.parent, y.left, x.parent := par, x, y;
      Knot(a, x, b, y);
      Knot(Fork(a, x, b), y, c, par);
    }

    /** `x`, the left child of `y`, becomes its parent. */
    static method SwingRight(x: Session, y: Session, par: Session?, ghost a: Shape, ghost b: Shape, ghost c: Shape,
                             ghost all: set<Session>)
      requires {x, y} + Objs(a) + Objs(b) + Objs(c) <= all
      requires y.left == x && x.parent == y && Linked(a, x.left, x) && Linked(b, x.right, x) && Linked(c, y.right, y)
      requires x != y && {x, y} !! Objs(a) !! Objs(b) !! Objs(c) && Distinct(b)
      modifies {x, y}`left, {x, y}`right, {x, y}`parent, Objs(b)`parent
      ensures Linked(Fork(a, x, Fork(b, y, c)), x, par)
    {
      hide Distinct, Linked, Objs;
      RootIn(b, x.right, x);
      y.left := x.right;
      Adopt(y.left, y, b, x);
      x.parent, x.right, y.parent := par, y, x;
      Knot(b, y, c, x);
      Knot(a, x, Fork(b, y, c), par);
    }

    /** The links of a rotation: the right child `y` of `x` goes above it. */
    method TurnLeft(x: Session, y: Session, ghost p: Path, ghost a: Shape, ghost b: Shape, ghost c: Shape)
      requires Pair(p, x, y, a, b, c) <= nodes
      requires PathLinked(p, root, x, x.parent) && x.right == y && y.parent == x
      requires Linked(a, x.left, x) && Linked(b, y.left, y) && Linked(c, y.right, y)
      requires PathDistinct(p) && Apart(p, x, y, a, b, c)
      modifies this`root, nodes`left, nodes`right, nodes`parent
      ensures Linked(Plug(p, Fork(Fork(a, x, b), y, c)), root, null)
    {
      hide Falling, Table, InOrder, Plug, Rank, Distinct, PathDistinct, PathLinked, PathObjs, Linked, Objs;
      var par := x.parent;
      Side(p, root, x, par);
      Relink(par, x, y, par != null && par.left == x, p);
      SwingLeft(x, y, par, a, b, c, nodes);
      Replug(p, Fork(Fork(a, x, b), y, c), root, y, par);
    }

    /** The links of a rotation: the left child `x` of `y` goes above it. */
    method TurnRight(x: Session, y: Session, ghost p: Path, ghost a: Shape, ghost b: Shape, ghost c: Shape)
      requires Pair(p, x, y, a, b, c) <= nodes
      requires PathLinked(p, root, y, y.parent) && y.left == x && x.parent == y
      requires Linked(a, x.left, x) && Linked(b, x.right, x) && Linked(c, y.right, y)
      requires PathDistinct(p) && Apart(p, x, y, a, b, c)
      modifies this`root, nodes`left, nodes`right, nodes`parent
      ensures Linked(Plug(p, Fork(a, x, Fork(b, y, c))), root, null)
    {
      hide Falling, Table, InOrder, Plug, Rank, Distinct, PathDistinct, PathLinked, PathObjs, Linked, Objs;
      var par := y.parent;
      Side(p, root, y, par);
      Relink(par, y, x, par != null && par.left == y, p);
      SwingRight(x, y, par, a, b, c, nodes);
      Replug(p, Fork(a, x, Fork(b, y, c)), root, x, par);
    }

    /** Rotation keeps the in-order sequence, and with it everything `Find` can see. */
    method RotateLeft(x: Session, ghost p: Path, ghost l: Shape, ghost r: Shape)
      requires Valid() && shape == Plug(p, Fork(l, x, r)) && x.right != null
      modifies this`root, this`shape, nodes`left, nodes`right, nodes`parent
      ensures Valid() && r.Fork? && shape == Plug(InLeft(p, r.s, r.right), Fork(l, x, r.left))
    {
      hide Falling, Table, Rank, InOrder, PathDistinct, PathLinked, PathObjs;
      var y := x.right;
      ghost var par := Focused(p, l, x, r, root, klen);
      assert r.Fork? && r.s == y;
      SpinOrder(p, l, x, r.left, y, r.right);
      TurnLeft(x, y, p, l, r.left, r.right);
      shape := Plug(p, Fork(Fork(l, x, r.left), y, r.right));
    }

    method RotateRight(y: Session, ghost p: Path, ghost l: Shape, ghost r: Shape)
      requires Valid() && shape == Plug(p, Fork(l, y, r)) && y.left != null
      modifies this`root, this`shape, nodes`left, nodes`right, nodes`parent
      ensures Valid() && l.Fork? && shape == Plug(InRight(p, l.left, l.s), Fork(l.right, y, r))
    {
      hide Falling, Table, Rank, InOrder, PathDistinct, PathLinked, PathObjs;
      var x := y.left;
      ghost var par := Focused(p, l, y, r, root, klen);
      assert l.Fork? && l.s == x;
      SpinOrder(p, l.left, x, l.right, y, r);
      TurnRight(x, y, p, l.left, l.right, r);
      shape := Plug(p, Fork(l.left, x, Fork(l.right, y, r)));
    }

    /** Any rebalancing: a list of rotations, each done where the node has the child it needs. */
    method Rebalance(turns: seq<Turn>)
      requires Valid() && forall t <- turns :: t.node in nodes
      modifies this`root, this`shape, nodes`left, nodes`right, nodes`parent
      ensures Valid()
    {
      hide Linked, Falling, Table, InOrder;
      for i := 0 to |turns|
        invariant Valid()
      {
        var x := turns[i].node;
        ghost var p, l, r := Focus(Top, shape, x);
        if turns[i].toLeft && x.right != null {
          RotateLeft(x, p, l, r);
        } else if !turns[i].toLeft && x.left != null {
          RotateRight(x, p, l, r);
        }
      }
    }

    /** `session_add`. `turns` is what `hev_rbtree_insert_color` chooses to do. */
    method Add(s: Session, turns: seq<Turn>)
      requires Valid() && |s.key| == klen && s.key !in table
      requires s !in nodes && forall t <- turns :: t.node in nodes + {s}
      modifies this, nodes`left, nodes`right, nodes`parent, s`left, s`right, s`parent
      ensures Valid() && table == old(table)[s.key := s] && nodes == old(nodes) + {s}
    {
      Link(s);
      Rebalance(turns);
    }

    /** Takes a node with at most one child out of the tree. */
    method Splice(s: Session, ghost p: Path, ghost l: Shape, ghost r: Shape)
      requires Valid() && shape == Plug(p, Fork(l, s, r)) && (s.left == null || s.right == null)
      modifies this, nodes`left, nodes`right, nodes`parent
      ensures Valid() && table == old(table) - {s.key} && nodes == old(nodes) - {s}
    {
      hide Falling, Table, Rank, InOrder, Plug, Distinct, PathDistinct, Linked, PathLinked, Objs, PathObjs;
      ghost var _ := Focused(p, l, s, r, root, klen);
      OneChild(l, s, r);
      var par, child := s.parent, if s.left == null then s.right else s.left;
      ghost var t := if s.left == null then r else l;
      RemoveShape(p, l, s, r, t, klen);
      Unhang(s, par, child, p, t);
      shape, order, nodes, table := Plug(p, t), InOrder(Plug(p, t)), nodes - {s}, table - {s.key};
    }

    /** The links of a splice. */
    method Unhang(s: Session, par: Session?, child: Session?, ghost p: Path, ghost t: Shape)
      requires PathLinked(p, root, s, par) && Linked(t, child, s) && PathObjs(p) + Objs(t) <= nodes
      requires PathDistinct(p) && Distinct(t) && PathObjs(p) !! Objs(t) && s !in PathObjs(p)
      modifies this`root, nodes`left, nodes`right, nodes`parent
      ensures Linked(Plug(p, t), root, null)
    {
      hide Falling, Table, InOrder, Plug, Rank, Distinct, PathDistinct, PathLinked, PathObjs, Linked, Objs;
      Side(p, root, s, par);
      RootIn(t, child, s);
      Relink(par, s, child, par != null && par.left == s, p);
      Adopt(child, par, t, s);
      Replug(p, t, root, child, par);
    }

    /** `session_del`: rotate `s` down until it has at most one child, splice it out, rebalance as `turns` says. */
    method Remove(s: Session, turns: seq<Turn>)
      requires Valid() && s in nodes && forall t <- turns :: t.node in nodes - {s}
      modifies this, nodes`left, nodes`right, nodes`parent
      ensures Valid() && table == old(table) - {s.key} && nodes == old(nodes) - {s}
    {
      hide Linked, Falling, Table, InOrder;
      ghost var p, l, r := Focus(Top, shape, s);
      while s.left != null && s.right != null
        invariant Valid() && shape == Plug(p, Fork(l, s, r))
        invariant nodes == old(nodes) && table == old(table)
        decreases r
      {
        RotateLeft(s, p, l, r);
        p, r := InLeft(p, r.s, r.right), r.left;
      }
      Splice(s, p, l, r);
      Rebalance(turns);
    }
  }

  datatype Turn = Turn(node: Session, toLeft: bool)

  lemma {:induction false} RemoveShape(p: Path, l: Shape, s: Session, r: Shape, t: Shape, klen: nat)
    requires Falling(InOrder(Plug(p, Fork(l, s, r))), klen)
    requires (l == Nil && t == r) || (r == Nil && t == l)
    ensures PathDistinct(p) && Distinct(t) && PathObjs(p) !! Objs(t)
    ensures Objs(Plug(p, t)) == Objs(Plug(p, Fork(l, s, r))) - {s} == PathObjs(p) + Objs(t)
    ensures Falling(InOrder(Plug(p, t)), klen)
    ensures Table(InOrder(Plug(p, t)), klen) == Table(InOrder(Plug(p, Fork(l, s, r))), klen) - {s.key}
  {
    hide Falling, Table, Rank, InOrder, Before, After;
    FallingDistinct(Plug(p, Fork(l, s, r)), klen);
    PlugDistinct(p, Fork(l, s, r));
    PlugDistinct(p, t);
    SpliceOrder(p, l, s, r, t);
    NodeOrder(p, l, s, r);
    RemoveFalling(Before(p) + InOrder(l), s, InOrder(r) + After(p), klen);
    RemoveTable(Before(p) + InOrder(l), s, InOrder(r) + After(p), klen);
  }

  lemma {:induction false} SpliceOrder(p: Path, l: Shape, s: Session, r: Shape, t: Shape)
    requires (l == Nil && t == r) || (r == Nil && t == l)
    ensures InOrder(Plug(p, t)) == (Before(p) + InOrder(l)) + (InOrder(r) + After(p))
  {
    hide Falling, Table, Rank, Before, After, Plug;
    PlugOrder(p, t);
    if l == Nil {
      assert InOrder(l) == [];
    } else {
      assert InOrder(r) == [];
    }
  }

  lemma RemoveFalling(b: seq<Session>, s: Session, a: seq<Session>, klen: nat)
    requires Falling(b + [s] + a, klen)
    ensures Falling(b + a, klen)
  {
    hide Rank;
    var xs, ys := b + [s] + a, b + a;
    forall i | 0 <= i < |ys| ensures ys[i] == xs[if i < |b| then i else i + 1] {}
  }

  lemma RemoveTable(b: seq<Session>, s: Session, a: seq<Session>, klen: nat)
    requires Falling(b + [s] + a, klen) && Falling(b + a, klen)
    ensures Table(b + a, klen) == Table(b + [s] + a, klen) - {s.key}
  {
    var xs := b + [s] + a;
    Once(b, s, a, klen);
    assert forall x :: x in xs <==> x == s || x in b + a;
    hide Falling, Rank, Table;
    var n := Table(xs, klen);
    assert n[s.key] == s;
    IsTable(b + a, klen, n - {s.key});
  }

  /** A node occurs once in a falling sequence. */
  lemma Once(b: seq<Session>, s: Session, a: seq<Session>, klen: nat)
    requires Falling(b + [s] + a, klen)
    ensures s !in b + a && s in b + [s] + a
  {
    FallingApart(b, [s] + a, klen) by { assert b + ([s] + a) == b + [s] + a; }
    FallingApart(b + [s], a, klen);
    assert s in [s] + a && s in b + [s];
  }

  /** The table is the one map with these two properties. */
  lemma IsTable(xs: seq<Session>, klen: nat, m: map<Key, Session>)
    requires Falling(xs, klen)
    requires forall s <- xs :: s.key in m && m[s.key] == s
    requires forall k <- m :: m[k] in xs && m[k].key == k
    ensures m == Table(xs, klen)
  {
    hide Falling, Rank, Table;
    var n := Table(xs, klen);
    assert forall k <- m :: k in n && n[k] == m[k];
    assert forall k <- n :: k in m;
  }

  /** What a valid tree says about the node at one place. */
  lemma Focused(p: Path, l: Shape, x: Session, r: Shape, root: Session?, klen: nat) returns (par: Session?)
    requires Linked(Plug(p, Fork(l, x, r)), root, null) && Falling(InOrder(Plug(p, Fork(l, x, r))), klen)
    ensures par == x.parent && PathLinked(p, root, x, par) && Linked(l, x.left, x) && Linked(r, x.right, x)
    ensures PathDistinct(p) && Distinct(Fork(l, x, r)) && PathObjs(p) !! Objs(Fork(l, x, r))
    ensures Objs(Plug(p, Fork(l, x, r))) == PathObjs(p) + Objs(Fork(l, x, r))
  {
    var n, q := Unplug(p, Fork(l, x, r), root);
    par := q;
    FallingDistinct(Plug(p, Fork(l, x, r)), klen);
    PlugDistinct(p, Fork(l, x, r));
  }

  lemma {:induction false} SpinOrder(p: Path, a: Shape, x: Session, b: Shape, y: Session, c: Shape)
    ensures InOrder(Plug(p, Fork(Fork(a, x, b), y, c))) == InOrder(Plug(p, Fork(a, x, Fork(b, y, c))))
    ensures Objs(Plug(p, Fork(Fork(a, x, b), y, c))) == Objs(Plug(p, Fork(a, x, Fork(b, y, c))))
  {
    PlugOrder(p, Fork(Fork(a, x, b), y, c));
    PlugOrder(p, Fork(a, x, Fork(b, y, c)));
    PlugDistinct(p, Fork(Fork(a, x, b), y, c));
    PlugDistinct(p, Fork(a, x, Fork(b, y, c)));
    assert InOrder(Fork(Fork(a, x, b), y, c)) == InOrder(Fork(a, x, Fork(b, y, c)));
  }

  lemma {:induction false} OneChild(l: Shape, s: Session, r: Shape)
    requires Linked(l, s.left, s) && Linked(r, s.right, s)
    ensures (l == Nil <==> s.left == null) && (r == Nil <==> s.right == null)
  {}

  /** Which link of the parent leads to the hole. */
  lemma {:induction false} Side(p: Path, root: Session?, n: Session, par: Session?)
    requires PathLinked(p, root, n, par) && n !in PathObjs(p)
    ensures par == null <==> p.Top?
    ensures par != null ==> par in PathObjs(p) && (par.left == n <==> p.InLeft?)
  {}

  lemma {:induction false} Knot(l: Shape, s: Session, r: Shape, par: Session?)
    requires s.parent == par && Linked(l, s.left, s) && Linked(r, s.right, s)
    ensures Linked(Fork(l, s, r), s, par)
  {}

  lemma {:induction false} RootIn(t: Shape, n: Session?, par: Session?)
    requires Linked(t, n, par)
    ensures n != null ==> n in Objs(t)
  {}

  ghost function Pair(p: Path, x: Session, y: Session, a: Shape, b: Shape, c: Shape): set<Session> {
    PathObjs(p) + {x, y} + Objs(a) + Objs(b) + Objs(c)
  }

  ghost predicate Apart(p: Path, x: Session, y: Session, a: Shape, b: Shape, c: Shape) {
    && x != y && PathObjs(p) !! {x, y} !! Objs(a) !! Objs(b) !! Objs(c)
    && Distinct(a) && Distinct(b) && Distinct(c)
  }

  lemma {:induction false} InsertShape(p: Path, s: Session, klen: nat)
    requires Falling(InOrder(Plug(p, Nil)), klen) && Around(p, s.key) && |s.key| == klen
    ensures PathDistinct(p) && PathObjs(p) == Objs(Plug(p, Nil))
    ensures Objs(Plug(p, Fork(Nil, s, Nil))) == Objs(Plug(p, Nil)) + {s}
    ensures Falling(InOrder(Plug(p, Fork(Nil, s, Nil))), klen)
    ensures Table(InOrder(Plug(p, Fork(Nil, s, Nil))), klen) == Table(InOrder(Plug(p, Nil)), klen)[s.key := s]
  {
    FallingDistinct(Plug(p, Nil), klen);
    PlugDistinct(p, Nil);
    PlugDistinct(p, Fork(Nil, s, Nil));
    HoleOrder(p, s);
    InsertFalling(Before(p), s, After(p), klen);
    InsertTable(Before(p), s, After(p), klen);
  }

  lemma {:induction false} HoleOrder(p: Path, s: Session)
    ensures InOrder(Plug(p, Nil)) == Before(p) + After(p)
    ensures InOrder(Plug(p, Fork(Nil, s, Nil))) == Before(p) + [s] + After(p)
  {
    PlugOrder(p, Nil);
    PlugOrder(p, Fork(Nil, s, Nil));
  }

  lemma InsertFalling(b: seq<Session>, s: Session, a: seq<Session>, klen: nat)
    requires Falling(b + a, klen) && Above(b, s.key) && Below(a, s.key) && |s.key| == klen
    ensures Falling(b + [s] + a, klen)
  {
    FallingParts(b, a, klen);
    var xs := b + [s] + a;
    hide Rank, Objs, Distinct;
    forall i, j | 0 <= i < j < |xs| ensures Rank(xs[i].key) > Rank(xs[j].key) {
      assert xs[i] == if i < |b| then b[i] else if i == |b| then s else a[i - |b| - 1];
      assert xs[j] == if j < |b| then b[j] else if j == |b| then s else a[j - |b| - 1];
    }
  }

  lemma InsertTable(b: seq<Session>, s: Session, a: seq<Session>, klen: nat)
    requires Falling(b + a, klen) && Falling(b + [s] + a, klen)
    ensures Table(b + [s] + a, klen) == Table(b + a, klen)[s.key := s]
  {
    Once(b, s, a, klen);
    KeyOnce(b, s, a, klen);
    assert forall x :: x in b + [s] + a <==> x == s || x in b + a;
    hide Falling, Rank, Table;
    IsTable(b + [s] + a, klen, Table(b + a, klen)[s.key := s]);
  }

  /** No other node of a falling sequence has the key of `s`. */
  lemma KeyOnce(b: seq<Session>, s: Session, a: seq<Session>, klen: nat)
    requires Falling(b + [s] + a, klen)
    ensures forall x <- b + a :: x.key != s.key
  {
    hide Rank, Table;
    var m := Table(b + [s] + a, klen);
    Once(b, s, a, klen);
    forall x | x in b + a ensures x.key != s.key {
      assert x in b + [s] + a;
      assert m[x.key] == x && m[s.key] == s;
    }
  }

  // ----- the descent of `session_add` on a key that is already there -----

  ghost predicate Has(t: Shape, k: Key) {
    exists s <- InOrder(t) :: s.key == k
  }

  /** What `*new` refers to after `n` rounds of the loop in `session_add`: no branch moves on an equal key. */
  ghost function Rounds(t: Shape, k: Key, n: nat): Shape
    requires forall s <- InOrder(t) :: |s.key| == |k|
    decreases n
  {
    if n == 0 || t == Nil then t
    else
      assert t.s in InOrder(t);
      var res := Memcmp(t.s.key, k);
      if res < 0 then Rounds(t.left, k, n - 1) else if res > 0 then Rounds(t.right, k, n - 1) else Rounds(t, k, n - 1)
  }

  /** Where the key can be after one round. */
  lemma {:induction false} OneSide(t: Shape, k: Key, klen: nat)
    requires t.Fork? && Falling(InOrder(t), klen) && |k| == klen
    ensures Falling(InOrder(t.left), klen) && Falling(InOrder(t.right), klen) && |t.s.key| == klen
    ensures Memcmp(t.s.key, k) < 0 ==> (Has(t, k) <==> Has(t.left, k))
    ensures Memcmp(t.s.key, k) > 0 ==> (Has(t, k) <==> Has(t.right, k))
    ensures Memcmp(t.s.key, k) == 0 ==> Has(t, k)
  {
    var l, s, r := InOrder(t.left), t.s, InOrder(t.right);
    FallingParts(l + [s], r, klen);
    FallingParts(l, [s], klen);
    Pivot(l, s, r, klen);
    MemcmpIsRank(s.key, k);
    assert forall x :: x in InOrder(t) <==> x in l || x == s || x in r;
    assert Rank(s.key) < Rank(k) ==> Below([s] + r, k);
    assert Rank(s.key) > Rank(k) ==> Above(l + [s], k);
    forall x <- [s] + r ensures Rank(s.key) < Rank(k) ==> x.key != k {}
    forall x <- l + [s] ensures Rank(s.key) > Rank(k) ==> x.key != k {}
  }

  /** The loop of `session_add` ends if and only if the key is absent. */
  lemma {:induction false} AddEndsIffAbsent(t: Shape, k: Key, klen: nat)
    requires Falling(InOrder(t), klen) && |k| == klen
    ensures (exists n: nat :: Rounds(t, k, n) == Nil) <==> !Has(t, k)
  {
    if Has(t, k) {
      forall n: nat ensures Rounds(t, k, n) != Nil { Spins(t, k, klen, n); }
    } else {
      var n := Reaches(t, k, klen);
    }
  }

  lemma {:induction false} Spins(t: Shape, k: Key, klen: nat, n: nat)
    requires Falling(InOrder(t), klen) && |k| == klen && Has(t, k)
    ensures Rounds(t, k, n) != Nil
    decreases n
  {
    if n > 0 {
      OneSide(t, k, klen);
      var res := Memcmp(t.s.key, k);
      Spins(if res < 0 then t.left else if res > 0 then t.right else t, k, klen, n - 1);
    }
  }

  lemma {:induction false} Reaches(t: Shape, k: Key, klen: nat) returns (n: nat)
    requires Falling(InOrder(t), klen) && |k| == klen && !Has(t, k)
    ensures Rounds(t, k, n) == Nil
    decreases t
  {
    n := 0;
    if t.Fork? {
      OneSide(t, k, klen);
      if Memcmp(t.s.key, k) < 0 {
        n := Reaches(t.left, k, klen);
      } else {
        n := Reaches(t.right, k, klen);
      }
      n := n + 1;
    }
  }
}
