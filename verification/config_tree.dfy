/** The value that `UnmarshalConfig` writes into: a Go configuration struct
    seen as a tree. Reflection is replaced by an explicit datatype: a
    struct is a `Record` of named fields, a pointer is a `Ptr` that may be
    nil, and every other value is a `Leaf` carrying its static kind and its
    current value. Positions inside the tree are paths of `Step`s, which is
    what a `reflect.Value` obtained by field selection and dereference
    denotes. */
module ConfigTree {
  import opened Common

  /** The static type of a leaf, as far as the overlay distinguishes it.
      `Int64Kind` carries the type's name, because the overlay treats
      `time.Duration`, `int64` and other named int64 types differently. */
  datatype Kind =
    | UintKind                    // uint, uint8 .. uint64, all modelled 64 bits wide
    | FloatKind                   // float32, float64
    | Int64Kind(typeName: string) // "time.Duration", "int64", or another named type
    | IntKind                     // int
    | StringKind
    | BoolKind
    | MapKind                     // map[string]string
    | OtherKind(typeName: string) // int8 .. int32, slices, interfaces, ...

  /** Dynamic values. Floats are kept as their IEEE-754 bit pattern. */
  datatype Value =
    | Num(n: int)
    | FloatBits(bits: u64)
    | Str(s: string)
    | Flag(b: bool)
    | Entries(m: map<string, string>)
    | Opaque

  datatype Node =
    | Record(fields: seq<Field>)
    | Ptr(target: Option<Node>)
    | Leaf(kind: Kind, value: Value)

  /** A struct field. `exported` is whether the name starts with an upper-case
      letter; `embedded` is whether it is an anonymous (embedded) field. */
  datatype Field = Field(name: string, exported: bool, embedded: bool, node: Node)

  /** One move of a `reflect.Value`: select the i-th field, or dereference. */
  datatype Step = Select(i: nat) | Deref

  /** Whether a value fits the static kind of its leaf. */
  predicate Fits(k: Kind, v: Value) {
    match k
    case UintKind => v.Num? && 0 <= v.n < 0x1_0000_0000_0000_0000
    case FloatKind => v.FloatBits?
    case Int64Kind(_) => v.Num? && -0x8000_0000_0000_0000 <= v.n < 0x8000_0000_0000_0000
    case IntKind => v.Num? && -0x8000_0000_0000_0000 <= v.n < 0x8000_0000_0000_0000
    case StringKind => v.Str?
    case BoolKind => v.Flag?
    case MapKind => v.Entries?
    case OtherKind(_) => true
  }

  /** Every leaf of the tree holds a value of its kind. */
  predicate WellTyped(n: Node) {
    match n
    case Record(fs) => forall i :: 0 <= i < |fs| ==> WellTyped(fs[i].node)
    case Ptr(t) => t.Some? ==> WellTyped(t.value)
    case Leaf(k, v) => Fits(k, v)
  }

  /** Two trees have the same shape: same field names, flags and order, the
      same nil-ness of every pointer and the same kind at every leaf. Only
      leaf values may differ. */
  predicate SameShape(a: Node, b: Node) {
    match a
    case Record(fa) =>
      && b.Record?
      && |fa| == |b.fields|
      && forall i :: 0 <= i < |fa| ==>
           && fa[i].name == b.fields[i].name
           && fa[i].exported == b.fields[i].exported
           && fa[i].embedded == b.fields[i].embedded
           && SameShape(fa[i].node, b.fields[i].node)
    case Ptr(t) =>
      && b.Ptr?
      && t.Some? == b.target.Some?
      && (t.Some? ==> SameShape(t.value, b.target.value))
    case Leaf(k, _) => b.Leaf? && b.kind == k
  }

  lemma {:induction false} SameShapeRefl(a: Node)
    ensures SameShape(a, a)
  {
    match a
    case Record(fa) =>
      forall i | 0 <= i < |fa| ensures SameShape(fa[i].node, fa[i].node) {
        SameShapeRefl(fa[i].node);
      }
    case Ptr(t) =>
      if t.Some? { SameShapeRefl(t.value); }
    case Leaf(_, _) =>
  }

  lemma {:induction false} SameShapeTrans(a: Node, b: Node, c: Node)
    requires SameShape(a, b) && SameShape(b, c)
    ensures SameShape(a, c)
  {
    match a
    case Record(fa) =>
      forall i | 0 <= i < |fa| ensures SameShape(fa[i].node, c.fields[i].node) {
        SameShapeTrans(fa[i].node, b.fields[i].node, c.fields[i].node);
      }
    case Ptr(t) =>
      if t.Some? { SameShapeTrans(t.value, b.target.value, c.target.value); }
    case Leaf(_, _) =>
  }

  /** A field of two records of the same shape: same name and flags, and
      sub-trees of the same shape. */
  lemma FieldShape(a: Node, b: Node, i: nat)
    requires SameShape(a, b) && WellTyped(b) && a.Record? && i < |a.fields|
    ensures b.Record? && |b.fields| == |a.fields|
    ensures b.fields[i].name == a.fields[i].name
    ensures b.fields[i].exported == a.fields[i].exported && b.fields[i].embedded == a.fields[i].embedded
    ensures SameShape(a.fields[i].node, b.fields[i].node) && WellTyped(b.fields[i].node)
  {
  }

  /** The node one step below `n`, if the step is possible. */
  function Child(n: Node, s: Step): (r: Option<Node>)
    ensures r.Some? <==> (s.Select? && n.Record? && s.i < |n.fields|) || (s.Deref? && n.Ptr? && n.target.Some?)
  {
    match s
    case Select(i) => if n.Record? && i < |n.fields| then Some(n.fields[i].node) else None
    case Deref => if n.Ptr? && n.target.Some? then Some(n.target.value) else None
  }

  /** The node at a path, if every step of the path is possible. */
  function NodeAt(n: Node, loc: seq<Step>): Option<Node>
    decreases |loc|
  {
    if |loc| == 0 then Some(n)
    else match Child(n, loc[0])
      case None => None
      case Some(c) => NodeAt(c, loc[1..])
  }

  /** The tree with the node at `loc` replaced by `x` (unchanged when `loc`
      leads nowhere). */
  function UpdateAt(n: Node, loc: seq<Step>, x: Node): Node
    decreases |loc|
  {
    if |loc| == 0 then x
    else match loc[0]
      case Select(i) =>
        if n.Record? && i < |n.fields| then
          Record(n.fields[i := n.fields[i].(node := UpdateAt(n.fields[i].node, loc[1..], x))])
        else n
      case Deref =>
        if n.Ptr? && n.target.Some? then Ptr(Some(UpdateAt(n.target.value, loc[1..], x))) else n
  }

  /** Neither path is a prefix of the other: they address disjoint subtrees. */
  predicate Disjoint(p: seq<Step>, q: seq<Step>) {
    !(p <= q) && !(q <= p)
  }

  /** Walking one more step from the node at `loc` is walking `loc + [s]`. */
  lemma {:induction false} NodeAtSnoc(n: Node, loc: seq<Step>, s: Step)
    ensures NodeAt(n, loc + [s]) == (if NodeAt(n, loc).Some? then Child(NodeAt(n, loc).value, s) else None)
    decreases |loc|
  {
    if |loc| == 0 {
      assert loc + [s] == [s];
    } else {
      assert (loc + [s])[0] == loc[0];
      assert (loc + [s])[1..] == loc[1..] + [s];
      match Child(n, loc[0])
      case None =>
      case Some(c) => NodeAtSnoc(c, loc[1..], s);
    }
  }

  /** Replacing a node with itself changes nothing. */
  lemma {:induction false} UpdateAtSelf(n: Node, loc: seq<Step>)
    requires NodeAt(n, loc).Some?
    ensures UpdateAt(n, loc, NodeAt(n, loc).value) == n
    decreases |loc|
  {
    if |loc| > 0 {
      match loc[0]
      case Select(i) =>
        UpdateAtSelf(n.fields[i].node, loc[1..]);
        assert n.fields[i := n.fields[i]] == n.fields;
      case Deref =>
        UpdateAtSelf(n.target.value, loc[1..]);
    }
  }

  /** After an update, the updated position holds the new node. */
  lemma {:induction false} NodeAtUpdated(n: Node, loc: seq<Step>, x: Node)
    requires NodeAt(n, loc).Some?
    ensures NodeAt(UpdateAt(n, loc, x), loc) == Some(x)
    decreases |loc|
  {
    if |loc| > 0 {
      match loc[0]
      case Select(i) => NodeAtUpdated(n.fields[i].node, loc[1..], x);
      case Deref => NodeAtUpdated(n.target.value, loc[1..], x);
    }
  }

  /** An update leaves every disjoint position as it was. */
  lemma {:induction false} NodeAtFrame(n: Node, loc: seq<Step>, x: Node, other: seq<Step>)
    requires NodeAt(n, loc).Some?
    requires Disjoint(loc, other)
    ensures NodeAt(UpdateAt(n, loc, x), other) == NodeAt(n, other)
    decreases |loc|
  {
    assert |loc| > 0 && |other| > 0;
    if loc[0] == other[0] {
      PrefixTail(loc, other);
      PrefixTail(other, loc);
      match loc[0]
      case Select(i) => NodeAtFrame(n.fields[i].node, loc[1..], x, other[1..]);
      case Deref => NodeAtFrame(n.target.value, loc[1..], x, other[1..]);
    } else if loc[0].Select? && other[0].Select? && other[0].i < |n.fields| {
      assert UpdateAt(n, loc, x).fields[other[0].i] == n.fields[other[0].i];
    }
  }

  lemma PrefixTail<T>(a: seq<T>, b: seq<T>)
    requires |a| > 0 && |b| > 0 && a[0] == b[0]
    ensures a <= b <==> a[1..] <= b[1..]
  {
    assert a == [a[0]] + a[1..];
    assert b == [b[0]] + b[1..];
  }

  /** Replacing a subtree by one of the same shape keeps the whole shape. */
  lemma {:induction false} UpdateAtSameShape(n: Node, loc: seq<Step>, x: Node)
    requires NodeAt(n, loc).Some?
    requires SameShape(NodeAt(n, loc).value, x)
    ensures SameShape(n, UpdateAt(n, loc, x))
    decreases |loc|
  {
    if |loc| > 0 {
      match loc[0]
      case Select(i) =>
        UpdateAtSameShape(n.fields[i].node, loc[1..], x);
        var u := UpdateAt(n, loc, x);
        forall j | 0 <= j < |n.fields| ensures SameShape(n.fields[j].node, u.fields[j].node) {
          if j != i { SameShapeRefl(n.fields[j].node); }
        }
      case Deref =>
        UpdateAtSameShape(n.target.value, loc[1..], x);
    }
  }

  /** Replacing a subtree by a well-typed one keeps the tree well-typed. */
  lemma {:induction false} UpdateAtWellTyped(n: Node, loc: seq<Step>, x: Node)
    requires WellTyped(n) && WellTyped(x)
    requires NodeAt(n, loc).Some?
    ensures WellTyped(UpdateAt(n, loc, x))
    decreases |loc|
  {
    if |loc| > 0 {
      match loc[0]
      case Select(i) => UpdateAtWellTyped(n.fields[i].node, loc[1..], x);
      case Deref => UpdateAtWellTyped(n.target.value, loc[1..], x);
    }
  }

  /** Trees of the same shape have the same positions, with the same shape there. */
  lemma {:induction false} NodeAtSameShape(a: Node, b: Node, loc: seq<Step>)
    requires SameShape(a, b)
    ensures NodeAt(a, loc).Some? <==> NodeAt(b, loc).Some?
    ensures NodeAt(a, loc).Some? ==> SameShape(NodeAt(a, loc).value, NodeAt(b, loc).value)
    decreases |loc|
  {
    if |loc| > 0 {
      match Child(a, loc[0])
      case None =>
      case Some(c) =>
        match loc[0]
        case Select(i) => NodeAtSameShape(c, b.fields[i].node, loc[1..]);
        case Deref => NodeAtSameShape(c, b.target.value, loc[1..]);
    }
  }

  /** Sub-trees of a well-typed tree are well-typed. */
  lemma {:induction false} NodeAtWellTyped(n: Node, loc: seq<Step>)
    requires WellTyped(n)
    requires NodeAt(n, loc).Some?
    ensures WellTyped(NodeAt(n, loc).value)
    decreases |loc|
  {
    if |loc| > 0 {
      match loc[0]
      case Select(i) => NodeAtWellTyped(n.fields[i].node, loc[1..]);
      case Deref => NodeAtWellTyped(n.target.value, loc[1..]);
    }
  }
}
