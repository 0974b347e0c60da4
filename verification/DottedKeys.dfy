/**
 Reading and editing a configuration document by dotted key. A set walks down the tables that the
 key names, creating the missing ones, and replaces the last entry.
 */
module DottedKeys {
  import opened Separators
  import opened Wrappers

  /** Numbers that JSON can carry, and the rest. */
  datatype Float = Finite(x: real) | NonFinite

  datatype Scalar = Str(s: string) | Bool(b: bool) | Int(i: int) | Flt(f: Float)

  /** `Opaque` is an item that no key leads into: an array, a date, an array of tables. */
  datatype Item =
    | Value(v: Scalar)
    | Inline(entries: map<string, Item>)
    | Table(entries: map<string, Item>)
    | Opaque(text: string)

  datatype Json = JString(s: string) | JBool(b: bool) | JInt(i: int) | JFloat(x: real) | JNull

  /** `render` writes out an item that is not a scalar. */
  function ToJson(render: Item -> string, it: Item): (j: Json)
    ensures j.JInt? <==> it.Value? && it.v.Int?
    ensures j.JInt? ==> j.i == it.v.i
    ensures j.JBool? <==> it.Value? && it.v.Bool?
    ensures j.JBool? ==> j.b == it.v.b
    ensures j.JNull? || j.JFloat? <==> it.Value? && it.v.Flt?
    ensures j.JFloat? <==> it.Value? && it.v.Flt? && it.v.f.Finite?
    ensures j.JFloat? ==> j.x == it.v.f.x
    ensures j.JString? ==> j.s == if it.Value? then it.v.s else render(it)
  {
    match it
    case Value(Str(s)) => JString(s)
    case Value(Bool(b)) => JBool(b)
    case Value(Int(i)) => JInt(i)
    case Value(Flt(Finite(x))) => JFloat(x)
    case Value(Flt(NonFinite)) => JNull
    case _ => JString(render(it))
  }

  /** The dot-free parts that a key is joined from. */
  ghost predicate Names(parts: seq<string>, key: string) {
    && parts != []
    && (forall p | p in parts :: '.' !in p)
    && Join(parts, '.') == key
  }

  /** Every key has exactly one list of parts. */
  lemma NamesExactly(parts: seq<string>, key: string)
    ensures Names(parts, key) <==> parts == Split(key, '.')
  {
    PartsExactly(parts, key, '.');
  }

  /** Keys lead into tables and inline tables only. */
  function Child(it: Item, part: string): (child: Option<Item>)
    ensures child.Some? <==> (it.Table? || it.Inline?) && part in it.entries
    ensures child.Some? ==> child.value == it.entries[part]
  {
    match it
    case Table(m) => if part in m then Some(m[part]) else None
    case Inline(m) => if part in m then Some(m[part]) else None
    case _ => None
  }

  /** The item that a path leads to. */
  function Walk(it: Item, path: seq<string>): Option<Item> {
    if path == [] then Some(it)
    else if Child(it, path[0]).None? then None
    else Walk(Child(it, path[0]).value, path[1..])
  }

  /** Follows a path; on failure, the key up to the first part that is missing. */
  method ResolveDottedKey(doc: Item, key: string, render: Item -> string) returns (r: Result<Json, string>)
    ensures Names(Split(key, '.'), key)
    ensures forall parts | Names(parts, key) ::
              && (r.Ok? <==> Walk(doc, parts).Some?)
              && (r.Ok? ==> r.value == ToJson(render, Walk(doc, parts).value))
              && (r.Err? ==> exists k: nat :: FirstMissing(doc, parts, k) && r.error == Join(parts[..k], '.'))
  {
    forall parts ensures Names(parts, key) <==> parts == Split(key, '.') {
      NamesExactly(parts, key);
    }
    var parts := Split(key, '.');
    var current, i := doc, 0;
    while i < |parts|
      invariant 0 <= i <= |parts|
      invariant Walk(doc, parts[..i]) == Some(current)
      invariant Walk(doc, parts) == Walk(current, parts[i..])
    {
      WalkOneMore(doc, parts[..i], parts[i]);
      assert parts[..i] + [parts[i]] == parts[..i + 1];
      var next := Child(current, parts[i]);
      if next.None? {
        assert FirstMissing(doc, parts, i + 1);
        return Err(Join(parts[..i + 1], '.'));
      }
      current := next.value;
      i := i + 1;
    }
    return Ok(ToJson(render, current));
  }

  /** The first `k` parts lead nowhere, and the parts before the `k`-th lead somewhere. */
  ghost predicate FirstMissing(doc: Item, parts: seq<string>, k: nat) {
    0 < k <= |parts| && Walk(doc, parts[..k]).None? && Walk(doc, parts[..k - 1]).Some?
  }

  lemma {:induction false} WalkOneMore(it: Item, path: seq<string>, part: string)
    ensures Walk(it, path).Some? ==> Walk(it, path + [part]) == Child(Walk(it, path).value, part)
  {
    if path == [] {
      assert (path + [part])[1..] == [];
      assert Child(it, part).Some? ==> Walk(Child(it, part).value, []) == Child(it, part);
    } else if Child(it, path[0]).Some? {
      assert (path + [part])[1..] == path[1..] + [part];
      WalkOneMore(Child(it, path[0]).value, path[1..], part);
    }
  }

  /** How the typed parsers read a value: integer, else float, else boolean, else the text itself. */
  datatype Parsers = Parsers(int64: string -> Option<int>, float64: string -> Option<Float>) {
    function Typed(value: string): (v: Scalar)
      ensures int64(value).Some? <==> v.Int?
      ensures v.Int? ==> int64(value) == Some(v.i)
      ensures v.Flt? <==> int64(value).None? && float64(value).Some?
      ensures v.Flt? ==> float64(value) == Some(v.f)
      ensures v.Bool? <==> int64(value).None? && float64(value).None? && value in {"true", "false"}
      ensures v.Bool? ==> v.b == (value == "true")
      ensures v.Str? ==> v.s == value
    {
      if int64(value).Some? then Int(int64(value).value)
      else if float64(value).Some? then Flt(float64(value).value)
      else if value == "true" then Bool(true)
      else if value == "false" then Bool(false)
      else Str(value)
    }
  }

  /**
   The walk of a set, step by step in place: the tables as they stand when it is over, and the part
   at which it failed.
   */
  function SetAt(m: map<string, Item>, path: seq<string>, leaf: Item): (map<string, Item>, Option<string>)
    requires path != []
    decreases |path|
  {
    if |path| == 1 then (m[path[0] := leaf], None)
    else
      var m1 := if path[0] in m then m else m[path[0] := Table(map[])];
      match m1[path[0]]
      case Table(sub) =>
        var (sub', failed) := SetAt(sub, path[1..], leaf);
        (m1[path[0] := Table(sub')], failed)
      case _ => (m1, Some(path[0]))
  }

  /** The first `k` parts, a proper prefix of the path, lead to something that is not a table. */
  ghost predicate BlockedAt(m: map<string, Item>, path: seq<string>, k: nat) {
    0 < k < |path| && Walk(Table(m), path[..k]).Some? && !Walk(Table(m), path[..k]).value.Table?
  }

  /** The first part that is in the way is the `k`-th. */
  ghost predicate FirstBlockedAt(m: map<string, Item>, path: seq<string>, k: nat) {
    BlockedAt(m, path, k) && forall j: nat | j < k :: !BlockedAt(m, path, j)
  }

  ghost predicate Blocked(m: map<string, Item>, path: seq<string>) {
    exists k: nat :: BlockedAt(m, path, k)
  }

  lemma BlockedBelow(m: map<string, Item>, path: seq<string>)
    requires |path| > 1 && path[0] in m && m[path[0]].Table?
    ensures forall k: nat | k > 0 :: BlockedAt(m, path, k) <==> BlockedAt(m[path[0]].entries, path[1..], k - 1)
    ensures Blocked(m, path) <==> Blocked(m[path[0]].entries, path[1..])
  {
    var sub := m[path[0]].entries;
    forall k: nat | k > 0 ensures BlockedAt(m, path, k) <==> BlockedAt(sub, path[1..], k - 1) {
      if k < |path| {
        assert path[..k][1..] == path[1..][..k - 1];
        assert Walk(Table(m), path[..k]) == Walk(Table(sub), path[1..][..k - 1]);
      }
    }
    if Blocked(sub, path[1..]) {
      var k: nat :| BlockedAt(sub, path[1..], k);
      assert BlockedAt(m, path, k + 1);
    }
  }

  /** Below a table that has just been created, nothing is in the way. */
  lemma {:induction false} NothingBlocksInEmpty(path: seq<string>)
    ensures !Blocked(map[], path)
  {
    forall k | 0 < k < |path| ensures Walk(Table(map[]), path[..k]).None? {
      assert path[..k] != [];
    }
  }

  lemma BlockedAtOnce(m: map<string, Item>, path: seq<string>)
    requires |path| > 1 && path[0] in m && !m[path[0]].Table?
    ensures FirstBlockedAt(m, path, 1)
  {
    assert path[..1][1..] == [];
    forall j: nat | j < 1 ensures !BlockedAt(m, path, j) {
      assert j == 0;
    }
  }

  /** A set fails exactly when it is blocked, names the first part in the way, and leaves the document as it was. */
  lemma {:induction false} SetFailsExactly(m: map<string, Item>, path: seq<string>, leaf: Item)
    requires path != []
    ensures SetAt(m, path, leaf).1.Some? <==> Blocked(m, path)
    ensures SetAt(m, path, leaf).1.Some? ==> SetAt(m, path, leaf).0 == m
    ensures SetAt(m, path, leaf).1.Some? ==>
              exists k: nat :: FirstBlockedAt(m, path, k) && SetAt(m, path, leaf).1.value == path[k - 1]
    decreases |path|
  {
    if |path| > 1 {
      if path[0] !in m {
        SetFailsExactly(map[], path[1..], leaf);
        NothingBlocksInEmpty(path[1..]);
        forall k | 0 < k < |path| ensures Walk(Table(m), path[..k]).None? {
          assert path[..k][0] == path[0];
        }
      } else if m[path[0]].Table? {
        SetFailsExactly(m[path[0]].entries, path[1..], leaf);
        BlockedBelow(m, path);
        if Blocked(m, path) {
          var k: nat :| FirstBlockedAt(m[path[0]].entries, path[1..], k)
                   && SetAt(m, path, leaf).1.value == path[1..][k - 1];
          assert forall j: nat | 0 < j < k + 1 :: !BlockedAt(m, path, j);
          assert FirstBlockedAt(m, path, k + 1) && path[1..][k - 1] == path[k];
        }
      } else {
        BlockedAtOnce(m, path);
      }
    }
  }

  /** A successful set is read back. */
  lemma {:induction false} SetThenWalk(m: map<string, Item>, path: seq<string>, leaf: Item)
    requires path != [] && SetAt(m, path, leaf).1.None?
    ensures Walk(Table(SetAt(m, path, leaf).0), path) == Some(leaf)
    decreases |path|
  {
    if |path| == 1 {
      assert path[1..] == [];
    } else {
      var m1 := if path[0] in m then m else m[path[0] := Table(map[])];
      SetThenWalk(m1[path[0]].entries, path[1..], leaf);
    }
  }

  /** A path that neither extends the key's path nor leads up to it is not affected. */
  lemma {:induction false} SetFrame(m: map<string, Item>, path: seq<string>, leaf: Item, other: seq<string>)
    requires path != [] && !(path <= other) && !(other <= path)
    ensures Walk(Table(SetAt(m, path, leaf).0), other) == Walk(Table(m), other)
    decreases |path|
  {
    if other[0] == path[0] && |path| > 1 {
      var m1 := if path[0] in m then m else m[path[0] := Table(map[])];
      assert path == [path[0]] + path[1..] && other == [path[0]] + other[1..];
      assert other[1..] != [];
      if m1[path[0]].Table? {
        SetFrame(m1[path[0]].entries, path[1..], leaf, other[1..]);
        if path[0] !in m {
          assert Walk(Table(map[]), other[1..]).None?;
        }
      }
    } else {
      assert |path| == 1 && other[0] == path[0] ==> path <= other;
    }
  }

  /** The document in which `above[k]` contains, under `path[k]`, the next table down to `table`. */
  function Around(above: seq<map<string, Item>>, path: seq<string>, table: map<string, Item>): map<string, Item>
    requires |above| <= |path|
  {
    if above == [] then table
    else
      var n := |above| - 1;
      Around(above[..n], path, above[n][path[n] := Table(table)])
  }

  /** What the rest of the walk, from the table that the cursor is at, makes of the document. */
  function Remaining(above: seq<map<string, Item>>, path: seq<string>, table: map<string, Item>, leaf: Item)
    : (map<string, Item>, Option<string>)
    requires |above| < |path|
  {
    var (table', failed) := SetAt(table, path[|above|..], leaf);
    (Around(above, path, table'), failed)
  }

  lemma OneTableDown(above: seq<map<string, Item>>, path: seq<string>, table: map<string, Item>, leaf: Item)
    requires |above| + 1 < |path|
    requires path[|above|] in table && table[path[|above|]].Table?
    ensures Remaining(above + [table], path, table[path[|above|]].entries, leaf) == Remaining(above, path, table, leaf)
  {
    var i := |above|;
    assert path[i..][0] == path[i] && path[i..][1..] == path[i + 1..];
    assert (above + [table])[..i] == above;
  }

  lemma CreatedFirst(above: seq<map<string, Item>>, path: seq<string>, table: map<string, Item>, leaf: Item)
    requires |above| + 1 < |path| && path[|above|] !in table
    ensures Remaining(above, path, table[path[|above|] := Table(map[])], leaf) == Remaining(above, path, table, leaf)
  {
  }

  /**
   What a set does and does not change: it fails exactly if it is blocked, names the first part in the
   way and changes nothing; else the path leads to the new value, and unrelated paths lead where they led.
   */
  ghost predicate SetResult(before: map<string, Item>, after: map<string, Item>, parts: seq<string>, leaf: Item,
                            failed: Option<string>)
  {
    && (failed.Some? <==> Blocked(before, parts))
    && (failed.Some? ==> after == before)
    && (failed.Some? ==> exists k: nat :: FirstBlockedAt(before, parts, k) && failed.value == parts[k - 1])
    && (failed.None? ==> Walk(Table(after), parts) == Some(leaf))
    && forall other | !(parts <= other) && !(other <= parts) :: Walk(Table(after), other) == Walk(Table(before), other)
  }

  class Document {
    var root: map<string, Item>

    constructor (root: map<string, Item>)
      ensures this.root == root
    {
      this.root := root;
    }

    /** Sets the entry that `key` names; the error is the part that is not a table. */
    method SetDottedKey(key: string, value: string, parsers: Parsers) returns (r: Result<(), string>)
      modifies this
      ensures Names(Split(key, '.'), key)
      ensures forall parts | Names(parts, key) ::
                SetResult(old(root), root, parts, Value(parsers.Typed(value)), if r.Err? then Some(r.error) else None)
    {
      forall parts ensures Names(parts, key) <==> parts == Split(key, '.') {
        NamesExactly(parts, key);
      }
      var parts := Split(key, '.');
      var leaf := Value(parsers.Typed(value));
      SetIsFramed(root, parts, leaf);
      var edited, failed := EditAt(parts, leaf);
      root := edited;
      r := if failed.Some? then Err(failed.value) else Ok(());
    }

    /** Walks down the tables, creating the missing ones, and writes the leaf where it arrives. */
    method EditAt(parts: seq<string>, leaf: Item) returns (edited: map<string, Item>, failed: Option<string>)
      requires parts != []
      ensures (edited, failed) == SetAt(root, parts, leaf)
    {
      var table, above := root, [];
      assert parts[0..] == parts;
      failed := None;
      while |above| < |parts| - 1
        invariant |above| < |parts| && Remaining(above, parts, table, leaf) == SetAt(root, parts, leaf)
      {
        var part := parts[|above|];
        if part !in table {
          CreatedFirst(above, parts, table, leaf);
          table := table[part := Table(map[])];
        }
        if !table[part].Table? {
          failed := Some(part);
          break;
        }
        OneTableDown(above, parts, table, leaf);
        above, table := above + [table], table[part].entries;
      }
      if failed.None? {
        table := table[parts[|above|] := leaf];
      }
      edited := Enclose(above, parts, table);
    }

    /** Puts each table back into the one above it. */
    static method Enclose(above: seq<map<string, Item>>, parts: seq<string>, table: map<string, Item>)
      returns (doc: map<string, Item>)
      requires |above| <= |parts|
      ensures doc == Around(above, parts, table)
    {
      doc := table;
      var left := above;
      while left != []
        invariant |left| <= |parts| && Around(left, parts, doc) == Around(above, parts, table)
      {
        var n := |left| - 1;
        doc := left[n][parts[n] := Table(doc)];
        left := left[..n];
      }
    }
  }

  lemma SetIsFramed(m: map<string, Item>, parts: seq<string>, leaf: Item)
    requires parts != []
    ensures SetResult(m, SetAt(m, parts, leaf).0, parts, leaf, SetAt(m, parts, leaf).1)
  {
    SetFailsExactly(m, parts, leaf);
    if SetAt(m, parts, leaf).1.None? {
      SetThenWalk(m, parts, leaf);
    }
    forall other | !(parts <= other) && !(other <= parts)
      ensures Walk(Table(SetAt(m, parts, leaf).0), other) == Walk(Table(m), other)
    {
      SetFrame(m, parts, leaf, other);
    }
  }

  /** After a successful set, resolving the same key gives the typed value, unless JSON has none. */
  lemma SetThenResolve(render: Item -> string, parsers: Parsers, m: map<string, Item>, parts: seq<string>,
                       key: string, value: string)
    requires Names(parts, key) && !Blocked(m, parts)
    ensures var m' := SetAt(m, parts, Value(parsers.Typed(value))).0;
      && Walk(Table(m'), parts).Some?
      && ToJson(render, Walk(Table(m'), parts).value) ==
         match parsers.Typed(value)
           case Int(i) => JInt(i)
           case Flt(Finite(x)) => JFloat(x)
           case Flt(NonFinite) => JNull
           case Bool(b) => JBool(b)
           case Str(s) => JString(value)
  {
    SetFailsExactly(m, parts, Value(parsers.Typed(value)));
    SetThenWalk(m, parts, Value(parsers.Typed(value)));
  }
}
