/** Properties of the dot-path overlay that relate several calls: the
    first-error policy of `UnmarshalConfig`, the tolerance of unknown
    segments, the swallowing of segments after a leaf, and the frame
    property (positions no key addresses keep their values). */
module OverlayProperties {
  import opened Common
  import opened ConfigTree
  import opened Overlay

  /** ---------- Keys ---------- */

  lemma {:induction false} JoinAppend(x: seq<string>, y: seq<string>)
    requires |x| > 0 && |y| > 0
    ensures Join(x + y) == Join(x) + "." + Join(y)
    decreases |x|
  {
    if |x| == 1 {
      assert (x + y)[1..] == y;
    } else {
      assert (x + y)[1..] == x[1..] + y;
      JoinAppend(x[1..], y);
    }
  }

  /** Splitting `a.b` splits `a` and `b` separately. */
  lemma SplitAppend(a: string, b: string)
    ensures Split(a + "." + b) == Split(a) + Split(b)
  {
    var x, y := Split(a), Split(b);
    JoinAppend(x, y);
    JoinSplit(a);
    JoinSplit(b);
    SplitJoin(x + y);
  }

  /** ---------- The walk ---------- */

  lemma {:induction false} WalkAppend(root: Node, c: Cursor, s1: seq<string>, s2: seq<string>)
    requires ValidCursor(root, c)
    ensures Walk(root, c, s1 + s2) == Walk(root, Walk(root, c, s1), s2)
    decreases |s1|
  {
    if |s1| > 0 {
      assert (s1 + s2)[0] == s1[0];
      assert (s1 + s2)[1..] == s1[1..] + s2;
      WalkAppend(root, Descend(root, c, s1[0]), s1[1..], s2);
    } else {
      assert s1 + s2 == s2;
    }
  }

  /** Once no value is found, the rest of the key is ignored. */
  lemma {:induction false} WalkFromLost(root: Node, segs: seq<string>)
    ensures Walk(root, Lost, segs) == Lost
    decreases |segs|
  {
    if |segs| > 0 {
      WalkFromLost(root, segs[1..]);
    }
  }

  /** Once the walk stands on a leaf, every further segment is skipped. */
  lemma {:induction false} WalkStopsAtLeaf(root: Node, c: Cursor, segs: seq<string>)
    requires c.At? && NodeAt(root, c.loc).Some? && NodeAt(root, c.loc).value.Leaf?
    ensures Walk(root, c, segs) == c
    decreases |segs|
  {
    if |segs| > 0 {
      WalkStopsAtLeaf(root, c, segs[1..]);
    }
  }

  /** A key whose first segment names no field of the root struct (or names
      two fields that differ only in letter case) is silently ignored. */
  lemma UnknownFieldIsNoOp(root: Node, key: string, value: string, lib: Parsers)
    requires root.Record?
    requires FindField(root.fields, Split(key)[0]).None?
    ensures SetField(root, key, value, lib) == Applied(root, None)
  {
    var segs := Split(key);
    assert Descend(root, Start(), segs[0]) == Lost;
    WalkFromLost(root, segs[1..]);
  }

  /** A key whose prefix reaches a nil pointer is silently ignored. */
  lemma NilPointerIsNoOp(root: Node, prefix: string, rest: string, value: string, lib: Parsers)
    requires Resolve(root, prefix).At?
    requires NodeAt(root, Resolve(root, prefix).loc) == Some(Ptr(None))
    ensures SetField(root, prefix + "." + rest, value, lib) == Applied(root, None)
  {
    var c := Resolve(root, prefix);
    SplitAppend(prefix, rest);
    WalkAppend(root, Start(), Split(prefix), Split(rest));
    var tail := Split(rest);
    assert Descend(root, c, tail[0]) == Lost;
    WalkFromLost(root, tail[1..]);
  }

  /** Extra segments after a key that reaches a leaf are swallowed:
      `leaf.extra` sets `leaf` itself. */
  lemma TrailingSegmentsSwallowed(root: Node, key: string, extra: string, value: string, lib: Parsers)
    requires Resolve(root, key).At?
    requires NodeAt(root, Resolve(root, key).loc).value.Leaf?
    ensures Resolve(root, key + "." + extra) == Resolve(root, key)
    ensures SetField(root, key + "." + extra, value, lib).config == SetField(root, key, value, lib).config
    ensures SetField(root, key + "." + extra, value, lib).err.None? == SetField(root, key, value, lib).err.None?
  {
    SplitAppend(key, extra);
    WalkAppend(root, Start(), Split(key), Split(extra));
    WalkStopsAtLeaf(root, Resolve(root, key), Split(extra));
  }

  /** ---------- Resolution depends only on the shape ---------- */

  predicate SameNames(fa: seq<Field>, fb: seq<Field>) {
    |fa| == |fb| && forall i :: 0 <= i < |fa| ==> fa[i].name == fb[i].name
  }

  lemma {:induction false} ScanFieldsSameNames(fa: seq<Field>, fb: seq<Field>, k: string, i: nat, found: Option<nat>)
    requires SameNames(fa, fb)
    requires i <= |fa|
    requires found.Some? ==> found.value < i && EqualFold(fa[found.value].name, k)
    requires forall j :: 0 <= j < i && EqualFold(fa[j].name, k) ==> found == Some(j)
    ensures ScanFields(fa, k, i, found) == ScanFields(fb, k, i, found)
    decreases |fa| - i
  {
    if i < |fa| {
      if EqualFold(fa[i].name, k) {
        if found.None? { ScanFieldsSameNames(fa, fb, k, i + 1, Some(i)); }
      } else {
        ScanFieldsSameNames(fa, fb, k, i + 1, found);
      }
    }
  }

  lemma DescendSameShape(a: Node, b: Node, c: Cursor, k: string)
    requires SameShape(a, b)
    requires ValidCursor(a, c)
    ensures ValidCursor(b, c)
    ensures Descend(a, c, k) == Descend(b, c, k)
  {
    if c.At? {
      NodeAtSameShape(a, b, c.loc);
      var va, vb := NodeAt(a, c.loc).value, NodeAt(b, c.loc).value;
      if va.Ptr? && va.target.Some? {
        var ta, tb := va.target.value, vb.target.value;
        NodeAtSnoc(a, c.loc, Deref);
        NodeAtSnoc(b, c.loc, Deref);
        if ta.Record? {
          assert SameNames(ta.fields, tb.fields);
          ScanFieldsSameNames(ta.fields, tb.fields, k, 0, None);
        }
      } else if va.Record? {
        assert SameNames(va.fields, vb.fields);
        ScanFieldsSameNames(va.fields, vb.fields, k, 0, None);
      }
    }
  }

  lemma {:induction false} WalkSameShape(a: Node, b: Node, c: Cursor, segs: seq<string>)
    requires SameShape(a, b)
    requires ValidCursor(a, c)
    ensures ValidCursor(b, c)
    ensures Walk(a, c, segs) == Walk(b, c, segs)
    decreases |segs|
  {
    DescendSameShape(a, b, c, if |segs| > 0 then segs[0] else "");
    if |segs| > 0 {
      WalkSameShape(a, b, Descend(a, c, segs[0]), segs[1..]);
    }
  }

  /** Every key resolves the same way in any configuration of the same shape,
      in particular in every intermediate result of an overlay. */
  lemma ResolveSameShape(a: Node, b: Node, key: string)
    requires SameShape(a, b)
    ensures Resolve(a, key) == Resolve(b, key)
  {
    WalkSameShape(a, b, Start(), Split(key));
  }

  /** ---------- UnmarshalConfig ---------- */

  /** Applying `a + b` is applying `a`, then, if that did not fail, `b`. */
  lemma {:induction false} ApplyPairsAppend(root: Node, data: map<string, string>, a: seq<string>, b: seq<string>, lib: Parsers)
    requires forall i :: 0 <= i < |a| ==> a[i] in data
    requires forall i :: 0 <= i < |b| ==> b[i] in data
    ensures
      var ra := ApplyPairs(root, data, a, lib);
      ApplyPairs(root, data, a + b, lib) == (if ra.err.Some? then ra else ApplyPairs(ra.config, data, b, lib))
    decreases |a|
  {
    if |a| == 0 {
      assert a + b == b;
    } else {
      assert (a + b)[0] == a[0];
      assert (a + b)[1..] == a[1..] + b;
      var s := SetField(root, a[0], data[a[0]], lib);
      if s.err.None? {
        ApplyPairsAppend(s.config, data, a[1..], b, lib);
      }
    }
  }

  /** The first failing pair decides the result: every pair before it was
      applied without error and stays applied, the failing pair's own partial
      effect is kept, and no later pair is applied. */
  lemma {:induction false} FirstErrorAborts(root: Node, data: map<string, string>, keys: seq<string>, lib: Parsers)
    requires forall i :: 0 <= i < |keys| ==> keys[i] in data
    requires ApplyPairs(root, data, keys, lib).err.Some?
    ensures exists j :: 0 <= j < |keys| && FailsAt(root, data, keys, lib, j)
    decreases |keys|
  {
    var s := SetField(root, keys[0], data[keys[0]], lib);
    if s.err.Some? {
      assert FailsAt(root, data, keys, lib, 0) by {
        assert keys[..0] == [];
      }
    } else {
      FirstErrorAborts(s.config, data, keys[1..], lib);
      var j :| 0 <= j < |keys[1..]| && FailsAt(s.config, data, keys[1..], lib, j);
      FailsAtShift(root, data, keys, lib, j);
    }
  }

  lemma FailsAtShift(root: Node, data: map<string, string>, keys: seq<string>, lib: Parsers, j: nat)
    requires forall i :: 0 <= i < |keys| ==> keys[i] in data
    requires |keys| > 0 && j < |keys| - 1
    requires SetField(root, keys[0], data[keys[0]], lib).err.None?
    requires FailsAt(SetField(root, keys[0], data[keys[0]], lib).config, data, keys[1..], lib, j)
    ensures FailsAt(root, data, keys, lib, j + 1)
  {
    var s := SetField(root, keys[0], data[keys[0]], lib);
    var rest := keys[1..];
    PrefixAfterFirst(root, data, keys, lib, j);
    assert keys[j + 1] == rest[j];
    assert ApplyPairs(root, data, keys, lib) == ApplyPairs(s.config, data, rest, lib);
  }

  /** A prefix that starts with a pair applied without error is the rest of
      that prefix applied to the result. */
  lemma PrefixAfterFirst(root: Node, data: map<string, string>, keys: seq<string>, lib: Parsers, j: nat)
    requires forall i :: 0 <= i < |keys| ==> keys[i] in data
    requires |keys| > 0 && j < |keys|
    requires SetField(root, keys[0], data[keys[0]], lib).err.None?
    ensures ApplyPairs(root, data, keys[..j + 1], lib)
         == ApplyPairs(SetField(root, keys[0], data[keys[0]], lib).config, data, keys[1..][..j], lib)
  {
    PrefixSplit(keys, j);
    ApplyOne(root, data, keys[0], lib);
    ApplyPairsAppend(root, data, [keys[0]], keys[1..][..j], lib);
  }

  lemma PrefixSplit(keys: seq<string>, j: nat)
    requires j < |keys|
    ensures keys[..j + 1] == [keys[0]] + keys[1..][..j]
  {
  }

  /** A one-key list applies exactly that pair. */
  lemma ApplyOne(root: Node, data: map<string, string>, k: string, lib: Parsers)
    requires k in data
    ensures ApplyPairs(root, data, [k], lib) == SetField(root, k, data[k], lib)
  {
    assert [k][1..] == [];
  }

  /** Pair `j` is the one that fails: the pairs before it succeed, and the
      overall result is exactly what pair `j` produced on their result. */
  ghost predicate FailsAt(root: Node, data: map<string, string>, keys: seq<string>, lib: Parsers, j: nat) {
    && (forall i :: 0 <= i < |keys| ==> keys[i] in data)
    && j < |keys|
    && (var before := ApplyPairs(root, data, keys[..j], lib);
        var failing := SetField(before.config, keys[j], data[keys[j]], lib);
        && before.err.None?
        && failing.err.Some?
        && ApplyPairs(root, data, keys, lib) == failing)
  }

  /** Without an error, every pair was applied in order and none failed. */
  lemma {:induction false} SuccessAppliesAll(root: Node, data: map<string, string>, keys: seq<string>, lib: Parsers, j: nat)
    requires forall i :: 0 <= i < |keys| ==> keys[i] in data
    requires ApplyPairs(root, data, keys, lib).err.None?
    requires j < |keys|
    ensures ApplyPairs(root, data, keys[..j], lib).err.None?
    ensures SetField(ApplyPairs(root, data, keys[..j], lib).config, keys[j], data[keys[j]], lib).err.None?
  {
    assert keys == keys[..j] + keys[j..];
    ApplyPairsAppend(root, data, keys[..j], keys[j..], lib);
  }

  /** The key `key` cannot write at `loc`: it resolves nowhere, to a
      read-only value, or to a position disjoint from `loc`. */
  predicate KeyMisses(root: Node, key: string, loc: seq<Step>) {
    var c := Resolve(root, key);
    !CanSet(c) || Disjoint(c.loc, loc)
  }

  /** Frame property of the overlay: a position that no key of the override
      set addresses keeps its value, whatever the outcome. */
  lemma {:induction false} UnaddressedUnchanged(root: Node, data: map<string, string>, keys: seq<string>, lib: Parsers, loc: seq<Step>)
    requires forall i :: 0 <= i < |keys| ==> keys[i] in data
    requires forall i :: 0 <= i < |keys| ==> KeyMisses(root, keys[i], loc)
    ensures NodeAt(ApplyPairs(root, data, keys, lib).config, loc) == NodeAt(root, loc)
    decreases |keys|
  {
    if |keys| > 0 {
      var s := SetField(root, keys[0], data[keys[0]], lib);
      var c := Resolve(root, keys[0]);
      if CanSet(c) {
        NodeAtFrame(root, c.loc, Coerce(NodeAt(root, c.loc).value, keys[0], data[keys[0]], lib).config, loc);
      }
      if s.err.None? {
        forall i | 0 <= i < |keys[1..]| ensures KeyMisses(s.config, keys[1..][i], loc) {
          ResolveSameShape(root, s.config, keys[1..][i]);
        }
        UnaddressedUnchanged(s.config, data, keys[1..], lib, loc);
      }
    }
  }

  /** The same frame property, stated for `UnmarshalConfig` itself. */
  lemma UnmarshalFrame(root: Node, data: map<string, string>, order: seq<string>, lib: Parsers, loc: seq<Step>)
    requires IsEnumeration(order, data)
    requires forall k :: k in data ==> KeyMisses(root, k, loc)
    ensures NodeAt(UnmarshalConfig(root, data, order, lib).config, loc) == NodeAt(root, loc)
  {
    UnaddressedUnchanged(root, data, order, lib, loc);
  }

  /** ---------- The value a key writes is the one that stays ---------- */

  /** Nothing lies below a leaf: no path that strictly extends a leaf's path
      reaches a node. */
  lemma {:induction false} NothingBelowLeaf(n: Node, p: seq<Step>, q: seq<Step>)
    requires NodeAt(n, p).Some? && NodeAt(n, p).value.Leaf?
    requires p <= q && p != q
    ensures NodeAt(n, q).None?
    decreases |p|
  {
    if |p| > 0 {
      PrefixTail(p, q);
      if Child(n, p[0]).Some? {
        NothingBelowLeaf(Child(n, p[0]).value, p[1..], q[1..]);
      }
    }
  }

  /** Two settable positions that each hold a leaf are the same position or
      disjoint ones. */
  lemma LeavesAreEqualOrDisjoint(n: Node, p: seq<Step>, q: seq<Step>)
    requires NodeAt(n, p).Some? && NodeAt(n, p).value.Leaf?
    requires NodeAt(n, q).Some? && NodeAt(n, q).value.Leaf?
    ensures p == q || Disjoint(p, q)
  {
    if p != q && p <= q {
      NothingBelowLeaf(n, p, q);
    } else if p != q && q <= p {
      NothingBelowLeaf(n, q, p);
    }
  }

  /** The int64-based named types other than `time.Duration`, which
      `setField` silently leaves alone. */
  predicate KeepsValue(k: Kind) {
    k.Int64Kind? && k.typeName != "time.Duration" && k.typeName != "int64"
  }

  /** `setField`'s switch looks only at the kind of the target: a coercion
      that succeeds found a leaf, and another leaf of that kind coerces the
      same way to the same node, unless the kind keeps its value. */
  lemma CoerceByKind(a: Node, b: Node, key: string, value: string, lib: Parsers)
    requires SameShape(a, b)
    requires Coerce(a, key, value, lib).err.None?
    ensures a.Leaf? && b.Leaf? && a.kind == b.kind
    ensures Coerce(b, key, value, lib).err.None?
    ensures !KeepsValue(a.kind) ==> Coerce(a, key, value, lib).config == Coerce(b, key, value, lib).config
    ensures KeepsValue(a.kind) ==> Coerce(a, key, value, lib).config == a && Coerce(b, key, value, lib).config == b
  {
  }

  /** A successful overlay changes a leaf only by a key that resolves to it
      and coerces a value different from the one it holds. */
  lemma {:induction false} UnchangedUnlessRewritten(root: Node, data: map<string, string>, keys: seq<string>, lib: Parsers, loc: seq<Step>)
    requires forall i :: 0 <= i < |keys| ==> keys[i] in data
    requires ApplyPairs(root, data, keys, lib).err.None?
    requires NodeAt(root, loc).Some? && NodeAt(root, loc).value.Leaf?
    requires forall i :: 0 <= i < |keys| ==>
      || !CanSet(Resolve(root, keys[i]))
      || Resolve(root, keys[i]).loc != loc
      || Coerce(NodeAt(root, loc).value, keys[i], data[keys[i]], lib).config == NodeAt(root, loc).value
    ensures NodeAt(ApplyPairs(root, data, keys, lib).config, loc) == NodeAt(root, loc)
    decreases |keys|
  {
    if |keys| > 0 {
      var s := SetField(root, keys[0], data[keys[0]], lib);
      var c := Resolve(root, keys[0]);
      assert s.err.None?;
      if CanSet(c) && c.loc != loc {
        SameShapeRefl(NodeAt(root, c.loc).value);
        CoerceByKind(NodeAt(root, c.loc).value, NodeAt(root, c.loc).value, keys[0], data[keys[0]], lib);
        LeavesAreEqualOrDisjoint(root, c.loc, loc);
        assert NodeAt(s.config, loc) == NodeAt(root, loc);
      }
      assert NodeAt(s.config, loc) == NodeAt(root, loc);
      forall i | 0 <= i < |keys[1..]| ensures Resolve(s.config, keys[1..][i]) == Resolve(root, keys[1..][i]) {
        ResolveSameShape(root, s.config, keys[1..][i]);
      }
      assert forall i :: 0 <= i < |keys[1..]| ==> keys[1..][i] == keys[i + 1];
      UnchangedUnlessRewritten(s.config, data, keys[1..], lib, loc);
    }
  }

  /** A successful overlay is the pairs before key `i`, then key `i`, then
      the pairs after it, each part without error. */
  lemma SplitAtKey(root: Node, data: map<string, string>, keys: seq<string>, lib: Parsers, i: nat)
    requires forall j :: 0 <= j < |keys| ==> keys[j] in data
    requires ApplyPairs(root, data, keys, lib).err.None?
    requires i < |keys|
    ensures var pre := ApplyPairs(root, data, keys[..i], lib);
      && pre.err.None?
      && SetField(pre.config, keys[i], data[keys[i]], lib).err.None?
      && ApplyPairs(root, data, keys, lib) ==
           ApplyPairs(SetField(pre.config, keys[i], data[keys[i]], lib).config, data, keys[i + 1..], lib)
  {
    assert keys == keys[..i] + keys[i..];
    ApplyPairsAppend(root, data, keys[..i], keys[i..], lib);
    assert keys[i..] == [keys[i]] + keys[i + 1..];
    UnfoldFirst(ApplyPairs(root, data, keys[..i], lib).config, data, keys[i], keys[i + 1..], lib);
  }

  /** Applying `[k] + rest` is setting `k`, then applying `rest` unless that failed. */
  lemma UnfoldFirst(root: Node, data: map<string, string>, k: string, rest: seq<string>, lib: Parsers)
    requires k in data
    requires forall j :: 0 <= j < |rest| ==> rest[j] in data
    ensures var s := SetField(root, k, data[k], lib);
      ApplyPairs(root, data, [k] + rest, lib) == (if s.err.Some? then s else ApplyPairs(s.config, data, rest, lib))
  {
    assert ([k] + rest)[1..] == rest;
  }

  /** Key `k`, applied without error to a configuration of the original's
      shape, writes there what it would write into the original, unless the
      target's kind keeps its value. */
  lemma WrittenValue(root: Node, pre: Node, k: string, x: string, lib: Parsers)
    requires SameShape(root, pre)
    requires CanSet(Resolve(root, k))
    requires SetField(pre, k, x, lib).err.None?
    ensures var loc := Resolve(root, k).loc;
      && NodeAt(root, loc).value.Leaf?
      && NodeAt(pre, loc).Some?
      && (!KeepsValue(NodeAt(root, loc).value.kind) ==>
            NodeAt(SetField(pre, k, x, lib).config, loc) == Some(Coerce(NodeAt(root, loc).value, k, x, lib).config))
      && (KeepsValue(NodeAt(root, loc).value.kind) ==>
            NodeAt(SetField(pre, k, x, lib).config, loc) == NodeAt(pre, loc))
  {
    var loc := Resolve(root, k).loc;
    ResolveSameShape(root, pre, k);
    NodeAtSameShape(root, pre, loc);
    CoerceByKind(NodeAt(pre, loc).value, NodeAt(root, loc).value, k, x, lib);
  }

  /** Later keys that never resolve to `loc` leave the leaf there alone. */
  lemma LaterKeysMiss(root: Node, s: Node, data: map<string, string>, rest: seq<string>, lib: Parsers, loc: seq<Step>)
    requires SameShape(root, s)
    requires forall j :: 0 <= j < |rest| ==> rest[j] in data
    requires ApplyPairs(s, data, rest, lib).err.None?
    requires NodeAt(s, loc).Some? && NodeAt(s, loc).value.Leaf?
    requires forall j :: 0 <= j < |rest| ==> !CanSet(Resolve(root, rest[j])) || Resolve(root, rest[j]).loc != loc
    ensures NodeAt(ApplyPairs(s, data, rest, lib).config, loc) == NodeAt(s, loc)
  {
    forall j | 0 <= j < |rest| ensures Resolve(s, rest[j]) == Resolve(root, rest[j]) {
      ResolveSameShape(root, s, rest[j]);
    }
    UnchangedUnlessRewritten(s, data, rest, lib, loc);
  }

  /** Main effect of the overlay: when the whole override set applies without
      error, the position key `keys[i]` resolves to ends up holding that key's
      coerced value, unless a later key resolves to the same position. */
  lemma {:induction false} LastWriteWins(root: Node, data: map<string, string>, keys: seq<string>, lib: Parsers, i: nat)
    requires forall j :: 0 <= j < |keys| ==> keys[j] in data
    requires ApplyPairs(root, data, keys, lib).err.None?
    requires i < |keys| && CanSet(Resolve(root, keys[i]))
    requires forall j :: i < j < |keys| ==>
      !CanSet(Resolve(root, keys[j])) || Resolve(root, keys[j]).loc != Resolve(root, keys[i]).loc
    ensures var loc := Resolve(root, keys[i]).loc;
      NodeAt(ApplyPairs(root, data, keys, lib).config, loc) ==
        Some(Coerce(NodeAt(root, loc).value, keys[i], data[keys[i]], lib).config)
  {
    var loc := Resolve(root, keys[i]).loc;
    var k, x := keys[i], data[keys[i]];
    SplitAtKey(root, data, keys, lib, i);
    var pre := ApplyPairs(root, data, keys[..i], lib);
    var s := SetField(pre.config, k, x, lib);
    WrittenValue(root, pre.config, k, x, lib);
    SameShapeTrans(root, pre.config, s.config);
    NodeAtSameShape(root, s.config, loc);
    LaterKeysMiss(root, s.config, data, keys[i + 1..], lib, loc);
    if KeepsValue(NodeAt(root, loc).value.kind) {
      // Such a position was never changed before key i either.
      UnchangedUnlessRewritten(root, data, keys[..i], lib, loc);
    }
  }

  /** The same main effect, stated for `UnmarshalConfig` itself. */
  lemma AppliedValueKept(root: Node, data: map<string, string>, order: seq<string>, lib: Parsers, i: nat)
    requires IsEnumeration(order, data)
    requires UnmarshalConfig(root, data, order, lib).err.None?
    requires i < |order| && CanSet(Resolve(root, order[i]))
    requires forall j :: i < j < |order| ==>
      !CanSet(Resolve(root, order[j])) || Resolve(root, order[j]).loc != Resolve(root, order[i]).loc
    ensures var loc := Resolve(root, order[i]).loc;
      NodeAt(UnmarshalConfig(root, data, order, lib).config, loc) ==
        Some(Coerce(NodeAt(root, loc).value, order[i], data[order[i]], lib).config)
  {
    LastWriteWins(root, data, order, lib, i);
  }
}
