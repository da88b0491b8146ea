/** The dot-path configuration overlay of `internal/util/config.go`:
    `UnmarshalConfig` writes a flat map of `"a.b.c" -> string` pairs into a
    configuration tree, one pair at a time, stopping at the first error.

    The library parsers it calls (`strconv.ParseUint`, `strconv.ParseFloat`,
    `strconv.Atoi`, `time.ParseDuration`) are abstract functions bundled in
    `Parsers`. */
module Overlay {
  import opened Common
  import opened ConfigTree

  /** `strconv.Atoi` returns a value together with its error: on failure the
      value is 0 (syntax) or the clamped bound (range), and the caller may
      still use it. */
  datatype AtoiResult = AtoiResult(value: i64, err: Option<string>)

  datatype Parsers = Parsers(
    parseUint: string -> Result<u64>,      // strconv.ParseUint(s, 10, 64)
    parseFloat: string -> Result<u64>,     // strconv.ParseFloat(s, 64), as bits
    parseDuration: string -> Result<i64>,  // time.ParseDuration, in nanoseconds
    atoi: string -> AtoiResult)            // strconv.Atoi

  /** A configuration after an overlay step, and the error it returned (the
      configuration is left as modified so far, there is no rollback). */
  datatype Applied = Applied(config: Node, err: Option<string>)

  /** ---------- Splitting a key (`strings.Split(key, ".")`) ---------- */

  function Split(s: string): (r: seq<string>)
    ensures |r| > 0
    ensures forall i :: 0 <= i < |r| ==> '.' !in r[i]
    decreases |s|
  {
    if |s| == 0 then [""]
    else
      var rest := Split(s[1..]);
      if s[0] == '.' then [""] + rest
      else [[s[0]] + rest[0]] + rest[1..]
  }

  /** `strings.Join(segs, ".")`, the inverse of `Split`. */
  function Join(segs: seq<string>): string
    requires |segs| > 0
    decreases |segs|
  {
    if |segs| == 1 then segs[0] else segs[0] + "." + Join(segs[1..])
  }

  lemma {:induction false} JoinSplit(s: string)
    ensures Join(Split(s)) == s
    decreases |s|
  {
    if |s| > 0 {
      var rest := Split(s[1..]);
      JoinSplit(s[1..]);
      if s[0] == '.' {
        assert ([""] + rest)[1..] == rest;
      } else {
        var r := [[s[0]] + rest[0]] + rest[1..];
        if |rest| > 1 {
          assert r[1..] == rest[1..];
          assert Join(rest) == rest[0] + "." + Join(rest[1..]);
        }
      }
      assert s == [s[0]] + s[1..];
    }
  }

  lemma {:induction false} SplitJoin(segs: seq<string>)
    requires |segs| > 0
    requires forall i :: 0 <= i < |segs| ==> '.' !in segs[i]
    ensures Split(Join(segs)) == segs
    decreases |segs|, |segs[0]|
  {
    if |segs[0]| == 0 {
      if |segs| > 1 {
        assert Join(segs) == "." + Join(segs[1..]);
        SplitJoin(segs[1..]);
        assert Join(segs)[1..] == Join(segs[1..]);
        assert [""] + segs[1..] == segs;
      }
    } else {
      var c := segs[0][0];
      var segs' := [segs[0][1..]] + segs[1..];
      assert '.' !in segs'[0] by { assert forall x :: x in segs[0][1..] ==> x in segs[0]; }
      assert segs'[1..] == segs[1..];
      SplitJoin(segs');
      assert Join(segs) == [c] + Join(segs') by {
        if |segs| > 1 {
          assert Join(segs') == segs[0][1..] + "." + Join(segs[1..]);
        }
        assert segs[0] == [c] + segs[0][1..];
      }
      assert c != '.' by { assert c in segs[0]; }
      assert Join(segs)[1..] == Join(segs');
      assert [c] + segs'[0] == segs[0];
      assert [[c] + segs'[0]] + segs'[1..] == segs;
    }
  }

  /** ---------- Field lookup (`FieldByNameFunc` with `EqualFold`) ---------- */

  /** Scans `fields[i..]` for names equal to `k` case-insensitively, having
      found `found` so far. A second match annihilates the first, as
      `FieldByNameFunc` does for two matches at the same depth. */
  function ScanFields(fields: seq<Field>, k: string, i: nat, found: Option<nat>): (r: Option<nat>)
    requires i <= |fields|
    requires found.Some? ==> found.value < i && EqualFold(fields[found.value].name, k)
    requires forall j :: 0 <= j < i && EqualFold(fields[j].name, k) ==> found == Some(j)
    ensures r.Some? ==> r.value < |fields| && EqualFold(fields[r.value].name, k)
    ensures r.Some? ==> forall j :: 0 <= j < |fields| && EqualFold(fields[j].name, k) ==> j == r.value
    ensures r.None? ==> forall j :: 0 <= j < |fields| && EqualFold(fields[j].name, k) ==>
                          exists j' :: 0 <= j' < |fields| && j' != j && EqualFold(fields[j'].name, k)
    decreases |fields| - i
  {
    if i == |fields| then found
    else if EqualFold(fields[i].name, k) then
      if found.Some? then None else ScanFields(fields, k, i + 1, Some(i))
    else ScanFields(fields, k, i + 1, found)
  }

  /** The index of the unique field whose name matches `k` case-insensitively. */
  function FindField(fields: seq<Field>, k: string): (r: Option<nat>)
    ensures r.Some? ==> r.value < |fields| && EqualFold(fields[r.value].name, k)
    ensures r.Some? ==> forall j :: 0 <= j < |fields| && EqualFold(fields[j].name, k) ==> j == r.value
    ensures r.None? ==> forall j :: 0 <= j < |fields| && EqualFold(fields[j].name, k) ==>
                          exists j' :: 0 <= j' < |fields| && j' != j && EqualFold(fields[j'].name, k)
  {
    ScanFields(fields, k, 0, None)
  }

  /** ---------- The path walk (the loop of `setField`) ---------- */

  /** Where the walk's `reflect.Value` currently stands: `Lost` is an invalid
      value (no matching field, or a nil pointer dereferenced); `At` a position
      with Go's read-only flags: `stickyRO` (reached through an unexported
      field, inherited by everything below) and `embedRO` (the value is itself
      an unexported embedded field, not inherited by its own fields). */
  datatype Cursor = Lost | At(loc: seq<Step>, stickyRO: bool, embedRO: bool)

  predicate ValidCursor(root: Node, c: Cursor) {
    c.At? ==> NodeAt(root, c.loc).Some?
  }

  /** `reflect.Value.CanSet`. */
  predicate CanSet(c: Cursor) {
    c.At? && !c.stickyRO && !c.embedRO
  }

  /** The cursor as it starts: the struct the configuration pointer points to. */
  function Start(): Cursor { At([], false, false) }

  /** The field-selection half of one loop iteration, at the value `v`
      the cursor `c` denotes: a non-struct leaves the cursor where it is. */
  function SelectSegment(root: Node, c: Cursor, v: Node, k: string): (r: Cursor)
    requires c.At? && NodeAt(root, c.loc) == Some(v)
    ensures ValidCursor(root, r)
  {
    if !v.Record? then c
    else match FindField(v.fields, k)
      case None => Lost
      case Some(i) =>
        NodeAtSnoc(root, c.loc, Select(i));
        var f := v.fields[i];
        At(c.loc + [Select(i)], c.stickyRO || (!f.exported && !f.embedded), !f.exported && f.embedded)
  }

  /** One iteration of the loop over the segments: dereference a pointer,
      skip the segment on anything but a struct, else select the field. */
  function Descend(root: Node, c: Cursor, k: string): (r: Cursor)
    requires ValidCursor(root, c)
    ensures ValidCursor(root, r)
  {
    match c
    case Lost => Lost
    case At(loc, sticky, embed) =>
      var v := NodeAt(root, loc).value;
      if v.Ptr? then
        if v.target.None? then Lost
        else
          NodeAtSnoc(root, loc, Deref);
          SelectSegment(root, At(loc + [Deref], sticky, embed), v.target.value, k)
      else SelectSegment(root, c, v, k)
  }

  function Walk(root: Node, c: Cursor, segs: seq<string>): (r: Cursor)
    requires ValidCursor(root, c)
    ensures ValidCursor(root, r)
    decreases |segs|
  {
    if |segs| == 0 then c else Walk(root, Descend(root, c, segs[0]), segs[1..])
  }

  /** Where the key `key` leads in `root`. */
  function Resolve(root: Node, key: string): (r: Cursor)
    ensures ValidCursor(root, r)
  {
    Walk(root, Start(), Split(key))
  }

  /** ---------- Coercion (the `switch v.Kind()` of `setField`) ---------- */

  function UnsupportedError(key: string): string {
    "unsupported field type for field: " + key
  }

  function InvalidBoolError(key: string): string {
    "invalid boolean value for field: " + key
  }

  /** Writes `value` into the settable node `v` according to its kind, giving
      the new node and the error returned. */
  function Coerce(v: Node, key: string, value: string, lib: Parsers): (r: Applied)
    // The static type of the target never changes, and values stay well-typed.
    ensures SameShape(v, r.config)
    ensures WellTyped(v) ==> WellTyped(r.config)
    // Booleans: exactly "true" and "false" in any letter case are accepted.
    ensures v.Leaf? && v.kind == BoolKind ==>
      && (r.err.None? <==> EqualFold(value, "true") || EqualFold(value, "false"))
      && (r.err.None? ==> r.config.value == Flag(EqualFold(value, "true")))
      && (r.err.Some? ==> r.config == v && r.err == Some(InvalidBoolError(key)))
    // Strings are stored verbatim.
    ensures v.Leaf? && v.kind == StringKind ==> r == Applied(Leaf(StringKind, Str(value)), None)
    // `int`: the parsed value is stored even when Atoi fails, and its error is returned.
    ensures v.Leaf? && v.kind == IntKind ==>
      r.config == Leaf(IntKind, Num(lib.atoi(value).value)) && r.err == lib.atoi(value).err
    // Unsigned integers, floats and durations: a parse error leaves the field as it was.
    ensures v.Leaf? && v.kind == UintKind && lib.parseUint(value).Ok? ==>
      r == Applied(Leaf(UintKind, Num(lib.parseUint(value).value)), None)
    ensures v.Leaf? && v.kind == UintKind && lib.parseUint(value).Err? ==>
      r == Applied(v, Some(lib.parseUint(value).msg))
    ensures v.Leaf? && v.kind == FloatKind && lib.parseFloat(value).Ok? ==>
      r == Applied(Leaf(FloatKind, FloatBits(lib.parseFloat(value).value)), None)
    ensures v.Leaf? && v.kind == FloatKind && lib.parseFloat(value).Err? ==>
      r == Applied(v, Some(lib.parseFloat(value).msg))
    ensures v.Leaf? && v.kind == Int64Kind("time.Duration") && lib.parseDuration(value).Ok? ==>
      r == Applied(Leaf(v.kind, Num(lib.parseDuration(value).value)), None)
    ensures v.Leaf? && v.kind == Int64Kind("time.Duration") && lib.parseDuration(value).Err? ==>
      r == Applied(v, Some(lib.parseDuration(value).msg))
    // Plain int64: Atoi, but unlike `int` a failure leaves the field as it was.
    ensures v.Leaf? && v.kind == Int64Kind("int64") ==>
      if lib.atoi(value).err.Some? then r == Applied(v, lib.atoi(value).err)
      else r == Applied(Leaf(v.kind, Num(lib.atoi(value).value)), None)
    // Any other int64-based named type is silently left alone.
    ensures v.Leaf? && v.kind.Int64Kind? && v.kind.typeName != "time.Duration" && v.kind.typeName != "int64" ==>
      r == Applied(v, None)
    // Structs, pointers, maps and other kinds are rejected, naming the key.
    ensures !v.Leaf? || v.kind.MapKind? || v.kind.OtherKind? ==>
      r == Applied(v, Some(UnsupportedError(key)))
  {
    match v
    case Leaf(kind, _) =>
      (match kind
       case UintKind =>
         (match lib.parseUint(value)
          case Err(e) => Applied(v, Some(e))
          case Ok(i) => Applied(Leaf(kind, Num(i)), None))
       case FloatKind =>
         (match lib.parseFloat(value)
          case Err(e) => Applied(v, Some(e))
          case Ok(f) => Applied(Leaf(kind, FloatBits(f)), None))
       case Int64Kind(typeName) =>
         if typeName == "time.Duration" then
           (match lib.parseDuration(value)
            case Err(e) => Applied(v, Some(e))
            case Ok(d) => Applied(Leaf(kind, Num(d)), None))
         else if typeName == "int64" then
           var a := lib.atoi(value);
           if a.err.Some? then Applied(v, a.err) else Applied(Leaf(kind, Num(a.value)), None)
         else Applied(v, None)
       case StringKind => Applied(Leaf(kind, Str(value)), None)
       case BoolKind =>
         LowerAsciiMatchesEqualFold(value, "true");
         LowerAsciiMatchesEqualFold(value, "false");
         var lower := LowerAscii(value);
         if lower == "true" then Applied(Leaf(kind, Flag(true)), None)
         else if lower == "false" then Applied(Leaf(kind, Flag(false)), None)
         else Applied(v, Some(InvalidBoolError(key)))
       case IntKind =>
         var a := lib.atoi(value);
         Applied(Leaf(kind, Num(a.value)), a.err)
       case _ => Applied(v, Some(UnsupportedError(key))))
    case _ =>
      SameShapeRefl(v);
      Applied(v, Some(UnsupportedError(key)))
  }

  /** ---------- setField and UnmarshalConfig ---------- */

  /** `setField(config, key, value)`: resolve the key; if it leads to a
      settable value, coerce the string into it. */
  function SetField(root: Node, key: string, value: string, lib: Parsers): (r: Applied)
    // A key that resolves nowhere, or to a read-only value, is a silent no-op.
    ensures !CanSet(Resolve(root, key)) ==> r == Applied(root, None)
    // Otherwise the resolved position receives the coerced value ...
    ensures CanSet(Resolve(root, key)) ==>
      var loc := Resolve(root, key).loc;
      && NodeAt(r.config, loc) == Some(Coerce(NodeAt(root, loc).value, key, value, lib).config)
      && r.err == Coerce(NodeAt(root, loc).value, key, value, lib).err
    // ... every position disjoint from it keeps its value ...
    ensures CanSet(Resolve(root, key)) ==>
      forall l :: Disjoint(l, Resolve(root, key).loc) ==> NodeAt(r.config, l) == NodeAt(root, l)
    // ... and the shape of the configuration never changes.
    ensures SameShape(root, r.config)
    ensures WellTyped(root) ==> WellTyped(r.config)
  {
    var c := Resolve(root, key);
    if !CanSet(c) then
      SameShapeRefl(root);
      Applied(root, None)
    else
      var v := NodeAt(root, c.loc).value;
      var a := Coerce(v, key, value, lib);
      NodeAtUpdated(root, c.loc, a.config);
      UpdateAtSameShape(root, c.loc, a.config);
      UpdateKeepsWellTyped(root, c.loc, a.config);
      assert forall l :: Disjoint(l, c.loc) ==> NodeAt(UpdateAt(root, c.loc, a.config), l) == NodeAt(root, l) by {
        forall l | Disjoint(l, c.loc) ensures NodeAt(UpdateAt(root, c.loc, a.config), l) == NodeAt(root, l) {
          NodeAtFrame(root, c.loc, a.config, l);
        }
      }
      Applied(UpdateAt(root, c.loc, a.config), a.err)
  }

  lemma UpdateKeepsWellTyped(root: Node, loc: seq<Step>, x: Node)
    requires NodeAt(root, loc).Some?
    requires WellTyped(NodeAt(root, loc).value) ==> WellTyped(x)
    ensures WellTyped(root) ==> WellTyped(UpdateAt(root, loc, x))
  {
    if WellTyped(root) {
      NodeAtWellTyped(root, loc);
      UpdateAtWellTyped(root, loc, x);
    }
  }

  lemma EmptyEnumeration(order: seq<string>, data: map<string, string>)
    requires IsEnumeration(order, data)
    ensures |order| > 0 ==> |data| > 0
  {
    if |order| > 0 {
      assert order[0] in data;
    }
  }

  /** Applies the pairs named by `keys`, in order, stopping at the first error. */
  function ApplyPairs(root: Node, data: map<string, string>, keys: seq<string>, lib: Parsers): (r: Applied)
    requires forall i :: 0 <= i < |keys| ==> keys[i] in data
    ensures SameShape(root, r.config)
    ensures WellTyped(root) ==> WellTyped(r.config)
    decreases |keys|
  {
    if |keys| == 0 then
      SameShapeRefl(root);
      Applied(root, None)
    else
      var a := SetField(root, keys[0], data[keys[0]], lib);
      if a.err.Some? then a
      else
        var r := ApplyPairs(a.config, data, keys[1..], lib);
        SameShapeTrans(root, a.config, r.config);
        r
  }

  /** `order` lists every key of `data` exactly once: one possible order of
      Go's randomised map iteration. */
  predicate IsEnumeration(order: seq<string>, data: map<string, string>) {
    && (forall k :: k in data ==> k in order)
    && (forall i :: 0 <= i < |order| ==> order[i] in data)
    && (forall i, j :: 0 <= i < j < |order| ==> order[i] != order[j])
  }

  /** `UnmarshalConfig(config, data)`, with the map visited in `order`. */
  function UnmarshalConfig(root: Node, data: map<string, string>, order: seq<string>, lib: Parsers): (r: Applied)
    requires IsEnumeration(order, data)
    ensures SameShape(root, r.config)
    ensures WellTyped(root) ==> WellTyped(r.config)
    ensures |data| == 0 ==> r == Applied(root, None)
  {
    EmptyEnumeration(order, data);
    ApplyPairs(root, data, order, lib)
  }
}
