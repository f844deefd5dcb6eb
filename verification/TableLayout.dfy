/** The layout of records, and the description of a table written as JSON and read back. */
module TableLayout {

  datatype AttrType = UNDEFINED | CHARS | INTS | DATES | TEXTS | FLOATS

  datatype Field = Field(name: string, ty: AttrType, offset: int, len: int, visible: bool, nullable: bool)

  datatype Attr = Attr(name: string, ty: AttrType, len: int, nullable: bool)

  datatype Index = Index(name: string, fields: seq<string>)

  datatype Meta = Meta(name: string, fields: seq<Field>, indexes: seq<Index>, recordSize: int)

  datatype Json = JNull | JStr(s: string) | JInt(n: int) | JBool(b: bool) | JArr(items: seq<Json>) | JObj(members: map<string, Json>)

  /** Reading fails; or it goes wrong on a null pointer. */
  datatype Result<T> = Ok(value: T) | Failed | Crashed

  // ---- fields and their layout ------------------------------------------------------------------

  /** A field can be initialised like this. */
  predicate Proper(f: Field) {
    f.name != "" && f.ty != UNDEFINED && f.offset >= 0 && f.len > 0
  }

  function InitField(f: Field): (r: Result<Field>)
    ensures r == Ok(f) <==> Proper(f)
    ensures !Proper(f) ==> r == Failed
  {
    if f.name == "" then Failed
    else if f.ty == UNDEFINED || f.offset < 0 || f.len <= 0 then Failed
    else Ok(f)
  }

  function Align8(size: nat): (r: nat)
    ensures r % 8 == 0 && size <= r < size + 8
  {
    size / 8 * 8 + if size % 8 == 0 then 0 else 8
  }

  predicate AttrProper(a: Attr) {
    a.name != "" && a.ty != UNDEFINED && a.len > 0
  }

  const TRX_FIELD: Field := Field("__trx", INTS, 0, 4, false, false)

  function Ends(f: Field): int { f.offset + f.len }

  /** The fields follow one another from the null bitmap to the end of the record. */
  predicate Tiles(fields: seq<Field>, start: int, size: int) {
    && fields != [] && fields[0].offset == start && Ends(fields[|fields| - 1]) == size
    && (forall i :: 0 <= i < |fields| ==> fields[i].len > 0)
    && (forall i :: 0 < i < |fields| ==> fields[i].offset == Ends(fields[i - 1]))
  }

  function BitmapLength(fields: seq<Field>): nat { Align8(|fields|) / 8 }

  /** The layout of a table: the null bitmap, the transaction's field, one field per attribute. */
  predicate LaidOut(attrs: seq<Attr>, fields: seq<Field>, size: int) {
    && |fields| == |attrs| + 1 && Tiles(fields, BitmapLength(fields), size)
    && fields[0] == TRX_FIELD.(offset := fields[0].offset)
    && forall i :: 0 < i < |fields| ==>
         fields[i] == Field(attrs[i - 1].name, attrs[i - 1].ty, fields[i].offset, attrs[i - 1].len, true, attrs[i - 1].nullable)
  }

  predicate Covers(f: Field, p: int) { f.offset <= p < Ends(f) }

  lemma {:induction false} LaterStartsAfter(fields: seq<Field>, start: int, size: int, i: nat, j: nat)
    requires Tiles(fields, start, size) && i < j < |fields|
    ensures Ends(fields[i]) <= fields[j].offset && fields[i].offset < fields[j].offset
    decreases j - i
  {
    if j > i + 1 { LaterStartsAfter(fields, start, size, i, j - 1); }
  }

  lemma {:induction false} SomeFieldCovers(fields: seq<Field>, start: int, size: int, p: int, n: nat) returns (i: nat)
    requires Tiles(fields, start, size) && n < |fields| && start <= p < Ends(fields[n])
    ensures i < |fields| && Covers(fields[i], p)
  {
    if p >= fields[n].offset { i := n; } else { i := SomeFieldCovers(fields, start, size, p, n - 1); }
  }

  /** Every byte of the record behind the bitmap is of exactly one field, and no other byte is of
      any; and the bitmap has a bit for each field. */
  lemma EveryByteHasOneField(attrs: seq<Attr>, fields: seq<Field>, size: int, p: int)
    requires LaidOut(attrs, fields, size)
    ensures BitmapLength(fields) <= p < size <==> exists i :: 0 <= i < |fields| && Covers(fields[i], p)
    ensures forall i, j :: 0 <= i < j < |fields| ==> !(Covers(fields[i], p) && Covers(fields[j], p))
    ensures |fields| <= 8 * BitmapLength(fields) < |fields| + 8
  {
    var b, n := BitmapLength(fields), |fields| - 1;
    forall i, j | 0 <= i < j < |fields| ensures !(Covers(fields[i], p) && Covers(fields[j], p)) {
      LaterStartsAfter(fields, b, size, i, j);
    }
    if b <= p < size {
      var i := SomeFieldCovers(fields, b, size, p, n);
    }
    if i :| 0 <= i < |fields| && Covers(fields[i], p) {
      if i > 0 { LaterStartsAfter(fields, b, size, 0, i); }
      if i < n { LaterStartsAfter(fields, b, size, i, n); }
    }
  }

  // ---- JSON -------------------------------------------------------------------------------------------

  function TypeName(t: AttrType): string {
    match t
    case UNDEFINED => "undefined"
    case CHARS => "chars"
    case INTS => "ints"
    case DATES => "dates"
    case TEXTS => "texts"
    case FLOATS => "floats"
  }

  function TypeFrom(s: string): (t: AttrType)
    ensures t != UNDEFINED ==> TypeName(t) == s
  {
    if s == "chars" then CHARS
    else if s == "ints" then INTS
    else if s == "dates" then DATES
    else if s == "texts" then TEXTS
    else if s == "floats" then FLOATS
    else UNDEFINED
  }

  lemma TypeRoundTrip(t: AttrType)
    ensures TypeFrom(TypeName(t)) == t
  {
    assert TypeName(t)[0] == match t case UNDEFINED => 'u' case CHARS => 'c' case INTS => 'i' case DATES => 'd' case TEXTS => 't' case FLOATS => 'f';
  }

  function Get(v: Json, key: string): Json {
    if v.JObj? && key in v.members then v.members[key] else JNull
  }

  predicate IsInt(v: Json) { v.JInt? && -0x8000_0000 <= v.n < 0x8000_0000 }

  function FieldToJson(f: Field): Json {
    JObj(map["name" := JStr(f.name), "type" := JStr(TypeName(f.ty)), "offset" := JInt(f.offset),
             "len" := JInt(f.len), "visible" := JBool(f.visible), "nullable" := JBool(f.nullable)])
  }

  function FieldFromJson(v: Json): (r: Result<Field>)
    ensures !r.Crashed?
  {
    var name, ty, offset, len, visible, nullable :=
      Get(v, "name"), Get(v, "type"), Get(v, "offset"), Get(v, "len"), Get(v, "visible"), Get(v, "nullable");
    if !name.JStr? || !ty.JStr? || !IsInt(offset) || !IsInt(len) || !visible.JBool? || !nullable.JBool? then Failed
    else if TypeFrom(ty.s) == UNDEFINED then Failed
    else InitField(Field(name.s, TypeFrom(ty.s), offset.n, len.n, visible.b, nullable.b))
  }

  predicate Fits(f: Field) { f.offset < 0x8000_0000 && f.len < 0x8000_0000 }

  lemma FieldRoundTrip(f: Field)
    requires Fits(f)
    ensures FieldFromJson(FieldToJson(f)) == Ok(f) <==> Proper(f)
  {
    TypeRoundTrip(f.ty);
  }

  predicate Named(fields: seq<Field>, name: string) {
    exists i :: 0 <= i < |fields| && fields[i].name == name
  }

  /** An array to which nothing has been appended is null. */
  function Array(items: seq<Json>): Json {
    if items == [] then JNull else JArr(items)
  }

  function NameToJson(name: string): Json { JObj(map["field_name" := JStr(name)]) }

  function NamesToJson(xs: seq<string>): (r: seq<Json>)
    ensures |r| == |xs| && forall i :: 0 <= i < |xs| ==> r[i] == NameToJson(xs[i])
  {
    seq(|xs|, i requires 0 <= i < |xs| => NameToJson(xs[i]))
  }

  function IndexToJson(x: Index): Json {
    JObj(map["index_name" := JStr(x.name),
             "index_field_names" := Array(NamesToJson(x.fields))])
  }

  predicate IsBlank(s: string) {
    forall i :: 0 <= i < |s| ==> s[i] in " \t\n\U{0B}\U{0C}\r"
  }

  function NamesFromJson(items: seq<Json>): Result<seq<string>> {
    if items == [] then Ok([])
    else
      var name := Get(items[|items| - 1], "field_name");
      match NamesFromJson(items[..|items| - 1])
      case Ok(names) => if name.JStr? then Ok(names + [name.s]) else Failed
      case Failed => Failed
      case Crashed => Crashed
  }

  /** The names are read, then the index name is looked at, and only then the fields: one that the
      table does not have is a null pointer, which is not checked for. */
  function IndexFromJson(fields: seq<Field>, v: Json): Result<Index> {
    var name, items := Get(v, "index_name"), Get(v, "index_field_names");
    if !name.JStr? || !items.JArr? then Failed
    else
      match NamesFromJson(items.items)
      case Ok(names) =>
        if IsBlank(name.s) then Failed
        else if exists i :: 0 <= i < |names| && !Named(fields, names[i]) then Crashed
        else Ok(Index(name.s, names))
      case Failed => Failed
      case Crashed => Crashed
  }

  /** An index that can be added to the table. */
  predicate IndexProper(fields: seq<Field>, x: Index) {
    !IsBlank(x.name) && x.fields != [] && forall i :: 0 <= i < |x.fields| ==> Named(fields, x.fields[i])
  }

  lemma {:induction false} NamesRoundTrip(names: seq<string>)
    ensures NamesFromJson(NamesToJson(names)) == Ok(names)
  {
    if names != [] {
      var n := |names| - 1;
      NamesRoundTrip(names[..n]);
      assert NamesToJson(names)[..n] == NamesToJson(names[..n]);
      assert names[..n] + [names[n]] == names;
    }
  }

  lemma IndexRoundTrip(fields: seq<Field>, x: Index)
    requires IndexProper(fields, x)
    ensures IndexFromJson(fields, IndexToJson(x)) == Ok(x)
  {
    NamesRoundTrip(x.fields);
    assert NamesToJson(x.fields) != [];
  }

  // ---- tables ------------------------------------------------------------------------------------------

  function FieldsFromJson(items: seq<Json>): Result<seq<Field>> {
    if items == [] then Ok([])
    else
      match FieldsFromJson(items[..|items| - 1])
      case Ok(fields) =>
        (match FieldFromJson(items[|items| - 1])
         case Ok(f) => Ok(fields + [f])
         case Failed => Failed
         case Crashed => Crashed)
      case Failed => Failed
      case Crashed => Crashed
  }

  function IndexesFromJson(fields: seq<Field>, items: seq<Json>): Result<seq<Index>> {
    if items == [] then Ok([])
    else
      match IndexesFromJson(fields, items[..|items| - 1])
      case Ok(indexes) =>
        (match IndexFromJson(fields, items[|items| - 1])
         case Ok(x) => Ok(indexes + [x])
         case Failed => Failed
         case Crashed => Crashed)
      case Failed => Failed
      case Crashed => Crashed
  }

  /** Reading stops at the first field that is wrong. */
  lemma {:induction false} FieldsStop(items: seq<Json>, i: nat)
    requires i <= |items| && !FieldsFromJson(items[..i]).Ok?
    ensures FieldsFromJson(items) == FieldsFromJson(items[..i])
  {
    var n := |items|;
    if i == n {
      assert items[..i] == items;
    } else {
      assert items[..n - 1][..i] == items[..i];
      FieldsStop(items[..n - 1], i);
    }
  }

  lemma {:induction false} IndexesStop(fields: seq<Field>, items: seq<Json>, i: nat)
    requires i <= |items| && !IndexesFromJson(fields, items[..i]).Ok?
    ensures IndexesFromJson(fields, items) == IndexesFromJson(fields, items[..i])
  {
    var n := |items|;
    if i == n {
      assert items[..i] == items;
    } else {
      assert items[..n - 1][..i] == items[..i];
      IndexesStop(fields, items[..n - 1], i);
    }
  }

  predicate ByOffset(fields: seq<Field>) {
    forall i, j :: 0 <= i < j < |fields| ==> fields[i].offset <= fields[j].offset
  }

  function InsertField(f: Field, fields: seq<Field>): (r: seq<Field>)
    requires ByOffset(fields)
    ensures ByOffset(r) && multiset(r) == multiset(fields) + multiset{f}
    ensures |r| == |fields| + 1 && (r[0] == f || (fields != [] && r[0] == fields[0]))
  {
    if fields == [] || f.offset <= fields[0].offset then [f] + fields
    else
      assert fields == [fields[0]] + fields[1..];
      [fields[0]] + InsertField(f, fields[1..])
  }

  function SortByOffset(fields: seq<Field>): (r: seq<Field>)
    ensures ByOffset(r) && multiset(r) == multiset(fields)
  {
    if fields == [] then []
    else
      assert fields == fields[..|fields| - 1] + [fields[|fields| - 1]];
      InsertField(fields[|fields| - 1], SortByOffset(fields[..|fields| - 1]))
  }

  predicate Ascends(fields: seq<Field>) {
    forall i, j :: 0 <= i < j < |fields| ==> fields[i].offset < fields[j].offset
  }

  lemma LeastIsFirst(fields: seq<Field>, r: seq<Field>)
    requires Ascends(fields) && ByOffset(r) && multiset(r) == multiset(fields) && fields != [] && r != []
    ensures r[0] == fields[0]
  {
    assert fields[0] in multiset(r);
    assert r[0] in multiset(fields);
    var i :| 0 <= i < |r| && r[i] == fields[0];
    var j :| 0 <= j < |fields| && fields[j] == r[0];
    assert r[0].offset <= r[i].offset;
  }

  /** Where offsets differ, there is only one way to sort, whatever the algorithm. */
  lemma {:induction false} SortedIsUnique(fields: seq<Field>, r: seq<Field>)
    requires Ascends(fields) && ByOffset(r) && multiset(r) == multiset(fields)
    ensures r == fields
    decreases |fields|
  {
    assert |multiset(r)| == |r| && |multiset(fields)| == |fields|;
    if fields != [] {
      LeastIsFirst(fields, r);
      assert fields == [fields[0]] + fields[1..] && r == [r[0]] + r[1..];
      assert multiset(r[1..]) == multiset(r) - multiset{r[0]};
      assert multiset(fields[1..]) == multiset(fields) - multiset{fields[0]};
      SortedIsUnique(fields[1..], r[1..]);
    }
  }

  function FieldsToJson(xs: seq<Field>): (r: seq<Json>)
    ensures |r| == |xs| && forall i :: 0 <= i < |xs| ==> r[i] == FieldToJson(xs[i])
  {
    seq(|xs|, i requires 0 <= i < |xs| => FieldToJson(xs[i]))
  }

  function IndexesToJson(xs: seq<Index>): (r: seq<Json>)
    ensures |r| == |xs| && forall i :: 0 <= i < |xs| ==> r[i] == IndexToJson(xs[i])
  {
    seq(|xs|, i requires 0 <= i < |xs| => IndexToJson(xs[i]))
  }

  function Serialize(m: Meta): Json {
    JObj(map["table_name" := JStr(m.name),
             "fields" := Array(FieldsToJson(m.fields)),
             "indexes" := Array(IndexesToJson(m.indexes))])
  }

  /** The outcome of reading, and the table then: name and fields are taken over before the indexes
      are read, and the indexes are kept if none is to be read. */
  function Deserialize(m: Meta, v: Json): (Result<()>, Meta) {
    var name, fields, indexes := Get(v, "table_name"), Get(v, "fields"), Get(v, "indexes");
    if !name.JStr? || !fields.JArr? || fields.items == [] then (Failed, m)
    else
      match FieldsFromJson(fields.items)
      case Failed => (Failed, m)
      case Crashed => (Crashed, m)
      case Ok(read) =>
        var sorted := SortByOffset(read);
        var d := Meta(name.s, sorted, m.indexes, if sorted == [] then 0 else Ends(sorted[|sorted| - 1]));
        if indexes == JNull || indexes == JArr([]) || indexes == JObj(map[]) then (Ok(()), d)
        else if !indexes.JArr? then (Failed, d)
        else
          match IndexesFromJson(sorted, indexes.items)
          case Ok(xs) => (Ok(()), d.(indexes := xs))
          case Failed => (Failed, d)
          case Crashed => (Crashed, d)
  }

  /** A table that has been initialised and given indexes, within the range of an int. */
  predicate IsTable(attrs: seq<Attr>, m: Meta) {
    && (forall i :: 0 <= i < |attrs| ==> AttrProper(attrs[i]))
    && LaidOut(attrs, m.fields, m.recordSize) && m.recordSize < 0x8000_0000
    && forall i :: 0 <= i < |m.indexes| ==> IndexProper(m.fields, m.indexes[i])
  }

  lemma {:induction false} FieldsRoundTrip(fields: seq<Field>)
    requires forall i :: 0 <= i < |fields| ==> Proper(fields[i]) && Fits(fields[i])
    ensures FieldsFromJson(FieldsToJson(fields)) == Ok(fields)
  {
    if fields != [] {
      var n := |fields| - 1;
      FieldsRoundTrip(fields[..n]);
      FieldRoundTrip(fields[n]);
      assert FieldsToJson(fields)[..n] == FieldsToJson(fields[..n]);
      assert fields[..n] + [fields[n]] == fields;
    }
  }

  lemma {:induction false} IndexesRoundTrip(fields: seq<Field>, xs: seq<Index>)
    requires forall i :: 0 <= i < |xs| ==> IndexProper(fields, xs[i])
    ensures IndexesFromJson(fields, IndexesToJson(xs)) == Ok(xs)
  {
    if xs != [] {
      var n := |xs| - 1;
      IndexesRoundTrip(fields, xs[..n]);
      IndexRoundTrip(fields, xs[n]);
      assert IndexesToJson(xs)[..n] == IndexesToJson(xs[..n]);
      assert xs[..n] + [xs[n]] == xs;
    }
  }

  lemma FieldsAreProper(attrs: seq<Attr>, m: Meta)
    requires IsTable(attrs, m)
    ensures Ascends(m.fields) && forall i :: 0 <= i < |m.fields| ==> Proper(m.fields[i]) && Fits(m.fields[i])
  {
    var b, n := BitmapLength(m.fields), |m.fields| - 1;
    forall i, j | 0 <= i < j < |m.fields| ensures m.fields[i].offset < m.fields[j].offset {
      LaterStartsAfter(m.fields, b, m.recordSize, i, j);
    }
    forall i | 0 <= i < |m.fields| ensures Proper(m.fields[i]) && Fits(m.fields[i]) {
      if i > 0 {
        LaterStartsAfter(m.fields, b, m.recordSize, 0, i);
      }
      if i < n { LaterStartsAfter(m.fields, b, m.recordSize, i, n); }
    }
  }

  /** A table that is written and read back is the same table, if and only if it has indexes or the
      description that it is read into had none. */
  lemma TableRoundTrip(attrs: seq<Attr>, m: Meta, into: Meta)
    requires IsTable(attrs, m)
    ensures Deserialize(into, Serialize(m)).0 == Ok(())
    ensures Deserialize(into, Serialize(m)).1 == m <==> m.indexes != [] || into.indexes == []
  {
    hide IsTable, FieldToJson, IndexToJson, FieldsFromJson, IndexesFromJson, SortByOffset, Proper, Fits;
    FieldsAreProper(attrs, m);
    FieldsRoundTrip(m.fields);
    TableParts(attrs, m);
    SortedIsUnique(m.fields, SortByOffset(m.fields));
    IndexesRoundTrip(m.fields, m.indexes);
    assert FieldsToJson(m.fields) != [];
    assert IndexesToJson(m.indexes) == [] <==> m.indexes == [];
  }

  lemma TableParts(attrs: seq<Attr>, m: Meta)
    requires IsTable(attrs, m)
    ensures m.fields != [] && m.recordSize == Ends(m.fields[|m.fields| - 1])
    ensures forall i :: 0 <= i < |m.indexes| ==> IndexProper(m.fields, m.indexes[i])
  {
  }

  /** The field is made from the attribute and placed there. */
  predicate IsOf(f: Field, a: Attr, offset: int) {
    f == Field(a.name, a.ty, offset, a.len, true, a.nullable)
  }

  lemma FieldIsOf(f: Field, a: Attr, offset: int)
    requires f == Field(a.name, a.ty, offset, a.len, true, a.nullable)
    ensures IsOf(f, a, offset)
  {
  }

  lemma MovedIsLaidOut(attrs: seq<Attr>, before: seq<Field>, fields: seq<Field>)
    requires |before| == |attrs| + 1 == |fields| && before[0] == TRX_FIELD
    requires forall j :: 0 <= j < |attrs| ==> AttrProper(attrs[j])
    requires forall j :: 0 < j < |before| ==> IsOf(before[j], attrs[j - 1], Ends(before[j - 1]))
    requires forall j :: 0 <= j < |fields| ==> fields[j] == before[j].(offset := before[j].offset + BitmapLength(fields))
    ensures LaidOut(attrs, fields, Ends(fields[|fields| - 1]))
  {
    hide BitmapLength;
    forall j | 0 < j < |fields|
      ensures fields[j] == Field(attrs[j - 1].name, attrs[j - 1].ty, fields[j].offset, attrs[j - 1].len, true, attrs[j - 1].nullable)
      ensures fields[j].len > 0 && fields[j].offset == Ends(fields[j - 1])
    {
      assert IsOf(before[j], attrs[j - 1], Ends(before[j - 1]));
      assert AttrProper(attrs[j - 1]);
    }
  }

  class TableMeta {
    var name: string
    var fields: seq<Field>
    var indexes: seq<Index>
    var recordSize: int

    ghost function Value(): Meta
      reads this
    {
      Meta(name, fields, indexes, recordSize)
    }

    constructor ()
      ensures Value() == Meta("", [], [], 0)
    {
      name, fields, indexes, recordSize := "", [], [], 0;
    }

    /** The fields are laid out one behind the other, and then moved behind the null bitmap. */
    method Init(newName: string, attrs: seq<Attr>) returns (ok: bool)
      modifies this
      ensures ok <==> newName != "" && attrs != [] && forall i :: 0 <= i < |attrs| ==> AttrProper(attrs[i])
      ensures ok ==> LaidOut(attrs, fields, recordSize) && name == newName
      ensures indexes == old(indexes) && (!ok ==> name == old(name) && recordSize == old(recordSize))
    {
      hide LaidOut, IsOf;
      if newName == "" || attrs == [] {
        return false;
      }
      fields := [TRX_FIELD];
      var offset := Ends(TRX_FIELD);
      for i := 0 to |attrs|
        invariant |fields| == i + 1 && fields[0] == TRX_FIELD && offset == Ends(fields[i]) && offset > 0
        invariant forall j :: 0 <= j < i ==> AttrProper(attrs[j])
        invariant forall j :: 0 < j <= i ==> IsOf(fields[j], attrs[j - 1], Ends(fields[j - 1]))
        invariant name == old(name) && recordSize == old(recordSize) && indexes == old(indexes)
      {
        var f := InitField(Field(attrs[i].name, attrs[i].ty, offset, attrs[i].len, true, attrs[i].nullable));
        if !f.Ok? {
          return false;
        }
        FieldIsOf(f.value, attrs[i], offset);
        fields := fields + [f.value];
        offset := offset + attrs[i].len;
      }
      var length := BitmapLength(fields);
      ghost var before := fields;
      for i := 0 to |fields|
        invariant |fields| == |before|
        invariant forall j :: 0 <= j < |fields| ==>
          fields[j] == if j < i then before[j].(offset := before[j].offset + length) else before[j]
        invariant name == old(name) && recordSize == old(recordSize) && indexes == old(indexes)
      {
        fields := fields[i := fields[i].(offset := fields[i].offset + length)];
      }
      recordSize := offset + length;
      name := newName;
      MovedIsLaidOut(attrs, before, fields);
      return true;
    }

    /** Nothing of the table is changed before all the fields have been read. */
    method Read(v: Json) returns (r: Result<()>)
      modifies this
      ensures (r, Value()) == Deserialize(old(Value()), v)
    {
      hide FieldsFromJson, IndexesFromJson, SortByOffset, Ends;
      var newName, items, indexItems := Get(v, "table_name"), Get(v, "fields"), Get(v, "indexes");
      if !newName.JStr? || !items.JArr? || items.items == [] {
        return Failed;
      }
      var read := ReadFields(items.items);
      if !read.Ok? {
        return if read.Failed? then Failed else Crashed;
      }
      fields := SortByOffset(read.value);
      name := newName.s;
      recordSize := if fields == [] then 0 else Ends(fields[|fields| - 1]);
      if indexItems == JNull || indexItems == JArr([]) || indexItems == JObj(map[]) {
        return Ok(());
      }
      if !indexItems.JArr? {
        return Failed;
      }
      var xs := ReadIndexes(fields, indexItems.items);
      if !xs.Ok? {
        return if xs.Failed? then Failed else Crashed;
      }
      indexes := xs.value;
      return Ok(());
    }
  }

  method ReadFields(items: seq<Json>) returns (r: Result<seq<Field>>)
    ensures r == FieldsFromJson(items)
  {
    var read := [];
    for i := 0 to |items|
      invariant FieldsFromJson(items[..i]) == Ok(read)
    {
      var f := FieldFromJson(items[i]);
      assert items[..i + 1][..i] == items[..i];
      if !f.Ok? {
        FieldsStop(items, i + 1);
        return Failed;
      }
      read := read + [f.value];
    }
    assert items[..|items|] == items;
    return Ok(read);
  }

  method ReadIndexes(fields: seq<Field>, items: seq<Json>) returns (r: Result<seq<Index>>)
    ensures r == IndexesFromJson(fields, items)
  {
    var read := [];
    for i := 0 to |items|
      invariant IndexesFromJson(fields, items[..i]) == Ok(read)
    {
      var x := IndexFromJson(fields, items[i]);
      assert items[..i + 1][..i] == items[..i];
      if !x.Ok? {
        IndexesStop(fields, items, i + 1);
        return if x.Failed? then Failed else Crashed;
      }
      read := read + [x.value];
    }
    assert items[..|items|] == items;
    return Ok(read);
  }
}
