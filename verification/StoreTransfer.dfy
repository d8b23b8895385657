/**
 * Exporting the whole store as JSON and importing it again (crates/idxdb-store/src/js/export.js and
 * import.js). Records are trees of values; JSON text is a tree of the values that JSON can write.
 */
module StoreTransfer {
  import opened Common
  import opened Base64

  datatype Primitive =
    | Null | Undefined | Bool(b: bool) | Number(n: real) | NegativeZero | NonFinite(kind: nat) | Str(s: string)

  /** What a database record is made of. */
  datatype Value =
    | Prim(p: Primitive)
    | Uint8Array(bytes: seq<byte>)
    | Blob(data: seq<byte>, mime: string)
    | Array(items: seq<Value>)
    | Record(fields: map<string, Value>)

  /** What is left after the export transform: no binary values. */
  datatype Tree = Leaf(p: Primitive) | List(items: seq<Tree>) | Object(fields: map<string, Tree>)

  const TYPE := "__type"
  const DATA := "data"

  // ---------------------------------------------------------------- export

  function Packed(tag: string, b: seq<byte>): Tree {
    Object(map[TYPE := Leaf(Str(tag)), DATA := Leaf(Str(Encode(b)))])
  }

  function Export(v: Value): Tree {
    match v
    case Uint8Array(b) => Packed("Uint8Array", b)
    case Blob(b, _) => Packed("Blob", b)
    case Array(items) => List(seq(|items|, i requires 0 <= i < |items| => Export(items[i])))
    case Record(fields) => Object(map k | k in fields :: Export(fields[k]))
    case Prim(p) => Leaf(p)
  }

  // ---------------------------------------------------------------- the JSON text

  function PrimitiveInText(p: Primitive): Primitive {
    match p
    case Undefined => Null
    case NonFinite(_) => Null
    case NegativeZero => Number(0.0)
    case _ => p
  }

  /** Writing as JSON and reading back: undefined fields vanish, and undefined items become null. */
  function ThroughText(t: Tree): Tree {
    match t
    case Leaf(p) => Leaf(PrimitiveInText(p))
    case List(items) => List(seq(|items|, i requires 0 <= i < |items| => ThroughText(items[i])))
    case Object(fields) => Object(map k | k in fields && fields[k] != Leaf(Undefined) :: ThroughText(fields[k]))
  }

  /** Trees that JSON text can denote. */
  predicate IsText(t: Tree) {
    match t
    case Leaf(p) => !p.Undefined? && !p.NonFinite? && !p.NegativeZero?
    case List(items) => forall i :: 0 <= i < |items| ==> IsText(items[i])
    case Object(fields) => forall k :: k in fields ==> IsText(fields[k])
  }

  // ---------------------------------------------------------------- import

  predicate Tagged(fields: map<string, Tree>, tag: string) {
    TYPE in fields && fields[TYPE] == Leaf(Str(tag))
  }

  /** The text handed to the decoder: JavaScript turns a value that is no string into one. */
  function DataText(fields: map<string, Tree>, asString: Tree -> string): string {
    if DATA !in fields then "undefined"
    else match fields[DATA]
      case Leaf(Str(s)) => s
      case t => asString(t)
  }

  function Import(t: Tree, asString: Tree -> string): Option<Value> {
    match t
    case Leaf(p) => Some(Prim(p))
    case List(items) =>
      if exists i :: 0 <= i < |items| && Import(items[i], asString).None? then None
      else Some(Array(seq(|items|, i requires 0 <= i < |items| => Import(items[i], asString).value)))
    case Object(fields) =>
      if Tagged(fields, "Blob") then
        match Decode(DataText(fields, asString))
        case None => None
        case Some(b) => Some(Blob(b, ""))
      else if Tagged(fields, "Uint8Array") then
        match Decode(DataText(fields, asString))
        case None => None
        case Some(b) => Some(Uint8Array(b))
      else if exists k :: k in fields && Import(fields[k], asString).None? then None
      else Some(Record(map k | k in fields :: Import(fields[k], asString).value))
  }

  function RoundTrip(v: Value, asString: Tree -> string): Option<Value> {
    Import(ThroughText(Export(v)), asString)
  }

  // ---------------------------------------------------------------- exactly the clean values return

  /** Nothing that JSON or the tagging would lose: checked on the record before it is exported. */
  predicate Clean(v: Value) {
    match v
    case Prim(p) => !p.Undefined? && !p.NonFinite? && !p.NegativeZero?
    case Uint8Array(_) => true
    case Blob(_, mime) => mime == ""
    case Array(items) => forall i :: 0 <= i < |items| ==> Clean(items[i])
    case Record(fields) =>
      && (TYPE in fields ==> fields[TYPE] != Prim(Str("Blob")) && fields[TYPE] != Prim(Str("Uint8Array")))
      && forall k :: k in fields ==> Clean(fields[k])
  }

  lemma PackedReturns(tag: string, b: seq<byte>, asString: Tree -> string)
    requires tag == "Blob" || tag == "Uint8Array"
    ensures Import(ThroughText(Packed(tag, b)), asString)
            == Some(if tag == "Blob" then Blob(b, "") else Uint8Array(b))
  {
    var t := Packed(tag, b);
    assert t.fields[TYPE] == Leaf(Str(tag)) && t.fields[DATA] == Leaf(Str(Encode(b)));
    assert ThroughText(t.fields[TYPE]) == Leaf(Str(tag));
    assert ThroughText(t.fields[DATA]) == Leaf(Str(Encode(b)));
    assert ThroughText(t).fields[TYPE] == Leaf(Str(tag)) && ThroughText(t).fields[DATA] == Leaf(Str(Encode(b)));
    DecodeEncode(b);
  }

  lemma {:induction false} CleanReturns(v: Value, asString: Tree -> string)
    requires Clean(v)
    ensures RoundTrip(v, asString) == Some(v)
  {
    match v
    case Prim(p) =>
    case Uint8Array(b) => PackedReturns("Uint8Array", b, asString);
    case Blob(b, _) => PackedReturns("Blob", b, asString);
    case Array(items) =>
      forall i | 0 <= i < |items|
        ensures RoundTrip(items[i], asString) == Some(items[i])
      {
        CleanReturns(items[i], asString);
      }
      ArrayReturns(items, asString);
    case Record(fields) =>
      forall k | k in fields
        ensures RoundTrip(fields[k], asString) == Some(fields[k])
      {
        CleanReturns(fields[k], asString);
      }
      RecordReturns(fields, asString);
  }

  lemma ArrayReturns(items: seq<Value>, asString: Tree -> string)
    requires forall i :: 0 <= i < |items| ==> RoundTrip(items[i], asString) == Some(items[i])
    ensures RoundTrip(Array(items), asString) == Some(Array(items))
  {
    var t := ThroughText(Export(Array(items))).items;
    assert |t| == |items|;
    assert forall i :: 0 <= i < |t| ==> t[i] == ThroughText(Export(items[i]));
    var r := RoundTrip(Array(items), asString);
    assert r.Some? && r.value.Array? && |r.value.items| == |items|;
    assert forall i :: 0 <= i < |t| ==> r.value.items[i] == items[i];
    assert r.value.items == items;
  }

  /** A clean record keeps all its fields in the text, and none of them makes it a tagged one. */
  lemma FieldsInText(fields: map<string, Value>)
    requires Clean(Record(fields))
    ensures var o := ThroughText(Export(Record(fields)));
            && o.Object? && o.fields.Keys == fields.Keys
            && (forall k :: k in fields ==> o.fields[k] == ThroughText(Export(fields[k])))
            && !Tagged(o.fields, "Blob") && !Tagged(o.fields, "Uint8Array")
  {
    var e := Export(Record(fields)).fields;
    var t := ThroughText(Object(e)).fields;
    forall k | k in fields
      ensures k in t && t[k] == ThroughText(Export(fields[k]))
    {
      assert Clean(fields[k]);
      assert e[k] == Export(fields[k]) != Leaf(Undefined);
    }
    assert t.Keys == fields.Keys;
    if TYPE in fields {
      assert t[TYPE] == ThroughText(Export(fields[TYPE]));
    }
  }

  /** A record whose fields all return, and that carries no tag, returns. */
  lemma RecordReturns(fields: map<string, Value>, asString: Tree -> string)
    requires Clean(Record(fields))
    requires forall k :: k in fields ==> RoundTrip(fields[k], asString) == Some(fields[k])
    ensures RoundTrip(Record(fields), asString) == Some(Record(fields))
  {
    hide Clean, Export, ThroughText;
    FieldsInText(fields);
    var t := ThroughText(Export(Record(fields))).fields;
    assert forall k :: k in t ==> Import(t[k], asString) == Some(fields[k]);
    var r := RoundTrip(Record(fields), asString);
    assert r.Some? && r.value.Record? && r.value.fields.Keys == fields.Keys;
    assert forall k :: k in t ==> r.value.fields[k] == fields[k];
    assert r.value.fields == fields;
  }

  lemma {:induction false} ThroughTextIsText(t: Tree)
    ensures IsText(ThroughText(t))
  {
    match t
    case Leaf(_) =>
    case List(items) =>
      forall i | 0 <= i < |items| ensures IsText(ThroughText(items[i])) { ThroughTextIsText(items[i]); }
    case Object(fields) =>
      forall k | k in fields ensures IsText(ThroughText(fields[k])) { ThroughTextIsText(fields[k]); }
  }

  /** Whatever an import produces would survive another export. */
  lemma {:induction false} ImportedIsClean(t: Tree, asString: Tree -> string)
    requires IsText(t) && Import(t, asString).Some?
    ensures Clean(Import(t, asString).value)
  {
    match t
    case Leaf(_) =>
    case List(items) =>
      forall i | 0 <= i < |items| ensures Clean(Import(items[i], asString).value) {
        ImportedIsClean(items[i], asString);
      }
    case Object(fields) =>
      if !Tagged(fields, "Blob") && !Tagged(fields, "Uint8Array") {
        forall k | k in fields ensures Clean(Import(fields[k], asString).value) {
          ImportedIsClean(fields[k], asString);
        }
      }
  }

  /** Export then import is the identity on exactly the clean values. */
  lemma RoundTripIff(v: Value, asString: Tree -> string)
    ensures RoundTrip(v, asString) == Some(v) <==> Clean(v)
  {
    if Clean(v) {
      CleanReturns(v, asString);
    } else {
      ThroughTextIsText(Export(v));
      if RoundTrip(v, asString) == Some(v) {
        ImportedIsClean(ThroughText(Export(v)), asString);
      }
    }
  }

  /** One trip is enough: what comes back is kept by every later trip. */
  lemma SecondTripKeeps(v: Value, asString: Tree -> string)
    requires RoundTrip(v, asString).Some?
    ensures RoundTrip(RoundTrip(v, asString).value, asString) == RoundTrip(v, asString)
  {
    ThroughTextIsText(Export(v));
    ImportedIsClean(ThroughText(Export(v)), asString);
    CleanReturns(RoundTrip(v, asString).value, asString);
  }

  // ---------------------------------------------------------------- the file format, and what it loses

  /** How binary values are written. */
  lemma BinaryFormat(b: seq<byte>, mime: string)
    ensures Export(Uint8Array(b)) == Object(map["__type" := Leaf(Str("Uint8Array")), "data" := Leaf(Str(Encode(b)))])
    ensures Export(Blob(b, mime)) == Object(map["__type" := Leaf(Str("Blob")), "data" := Leaf(Str(Encode(b)))])
  {
  }

  /** What becomes of the primitive values that do not return. */
  lemma PrimitiveLosses(kind: nat, asString: Tree -> string)
    ensures RoundTrip(Prim(Undefined), asString) == Some(Prim(Null))
    ensures RoundTrip(Prim(NonFinite(kind)), asString) == Some(Prim(Null))
    ensures RoundTrip(Prim(NegativeZero), asString) == Some(Prim(Number(0.0)))
  {
  }

  /** A blob loses its MIME type only. */
  lemma BlobLoss(b: seq<byte>, mime: string, asString: Tree -> string)
    ensures RoundTrip(Blob(b, mime), asString) == Some(Blob(b, ""))
  {
    hide Packed, ThroughText, Import, Encode;
    PackedReturns("Blob", b, asString);
  }

  function WithoutUndefined(fields: map<string, Value>): map<string, Value> {
    map k | k in fields && fields[k] != Prim(Undefined) :: fields[k]
  }

  lemma SameText(fields: map<string, Value>)
    ensures ThroughText(Export(Record(fields))) == ThroughText(Export(Record(WithoutUndefined(fields))))
  {
    var kept := WithoutUndefined(fields);
    var e, e' := Export(Record(fields)).fields, Export(Record(kept)).fields;
    forall k | k in fields ensures e[k] == Leaf(Undefined) <==> fields[k] == Prim(Undefined) {
      assert e[k] == Export(fields[k]);
    }
    var t, t' := ThroughText(Object(e)).fields, ThroughText(Object(e')).fields;
    assert t.Keys == t'.Keys;
    assert forall k :: k in t ==> t[k] == t'[k];
    assert t == t';
  }

  /** A record loses exactly its undefined fields, if everything else in it is clean. */
  lemma UndefinedFieldsGo(fields: map<string, Value>, asString: Tree -> string)
    requires Clean(Record(WithoutUndefined(fields)))
    ensures RoundTrip(Record(fields), asString) == Some(Record(WithoutUndefined(fields)))
  {
    hide Clean, Export, ThroughText, Import, WithoutUndefined;
    SameText(fields);
    CleanReturns(Record(WithoutUndefined(fields)), asString);
  }

  /** A record that looks like a written binary value comes back as one. */
  lemma TaggedRecordTurns(b: seq<byte>, asString: Tree -> string)
    ensures RoundTrip(Record(map["__type" := Prim(Str("Blob")), "data" := Prim(Str(Encode(b)))]), asString)
            == Some(Blob(b, ""))
    ensures RoundTrip(Record(map["__type" := Prim(Str("Uint8Array")), "data" := Prim(Str(Encode(b)))]), asString)
            == Some(Uint8Array(b))
  {
    PackedReturns("Blob", b, asString);
    PackedReturns("Uint8Array", b, asString);
    PackedRecord("Blob", b);
    PackedRecord("Uint8Array", b);
  }

  lemma PackedRecord(tag: string, b: seq<byte>)
    ensures Export(Record(map["__type" := Prim(Str(tag)), "data" := Prim(Str(Encode(b)))])) == Packed(tag, b)
  {
    hide Encode;
    var r := Record(map["__type" := Prim(Str(tag)), "data" := Prim(Str(Encode(b)))]);
    assert Export(r).fields["__type"] == Leaf(Str(tag)) && Export(r).fields["data"] == Leaf(Str(Encode(b)));
    assert Export(r).fields == Packed(tag, b).fields;
  }

  // ---------------------------------------------------------------- whole stores

  /** The rows of a table by primary key, and the tables by name. */
  type Store<K(==)> = map<string, map<K, Value>>

  /** A JSON file, table by table. */
  type File = map<string, Tree>

  /** Which primary key a record carries in a table; none if the key path is missing. */
  type KeyOf<K> = (string, Value) -> Option<K>

  datatype ImportError = NoTables | Aborted

  /** Rows stored under the key they carry. */
  ghost predicate Keyed<K(!new)>(db: Store<K>, key: KeyOf<K>) {
    forall n, k :: n in db && k in db[n] ==> key(n, db[n][k]) == Some(k)
  }

  /** `toArray`: every row once, in some order. */
  ghost predicate Lists<K(!new)>(records: seq<Value>, rows: map<K, Value>) {
    && (forall i :: 0 <= i < |records| ==> exists k :: k in rows && rows[k] == records[i])
    && (forall k :: k in rows ==> rows[k] in records)
  }

  function ExportAll(records: seq<Value>): Tree {
    List(seq(|records|, i requires 0 <= i < |records| => Export(records[i])))
  }

  /** `bulkPut`: rows are stored one after the other, later ones replacing earlier ones of the same key. */
  function BulkPut<K>(n: string, records: seq<Value>, key: KeyOf<K>): Option<map<K, Value>> {
    if records == [] then Some(map[])
    else
      var rows, k := BulkPut(n, records[..|records| - 1], key), key(n, records[|records| - 1]);
      if rows.None? || k.None? then None else Some(rows.value[k.value := records[|records| - 1]])
  }

  /** One table of the file, transformed and stored. */
  function Loaded<K>(n: string, t: Tree, key: KeyOf<K>, asString: Tree -> string): Option<map<K, Value>> {
    if !t.List? then None
    else
      match Import(t, asString)
      case Some(Array(records)) => BulkPut(n, records, key)
      case _ => None
  }

  /**
   * What an import leaves: each table of the schema holds what the file lists for it, and is empty when
   * the file does not mention it. A name outside the schema is skipped, or aborts the import where
   * looking up an unknown table throws.
   */
  function Imported<K>(names: set<string>, file: File, key: KeyOf<K>, asString: Tree -> string, strict: bool)
    : Result<Store<K>, ImportError>
  {
    if file == map[] then Err(NoTables)
    else if strict && !(file.Keys <= names) then Err(Aborted)
    else if exists n :: n in file && n in names && Loaded(n, file[n], key, asString).None? then Err(Aborted)
    else
      Ok(map n | n in names :: if n in file then Loaded(n, file[n], key, asString).value else map[])
  }

  /** A file that was written by exporting the store. */
  ghost predicate ExportOf<K(!new)>(file: File, db: Store<K>) {
    && file.Keys == db.Keys
    && forall n :: n in db ==> exists records :: Lists(records, db[n]) && file[n] == ThroughText(ExportAll(records))
  }

  lemma ExportAllIsExport(records: seq<Value>)
    ensures ExportAll(records) == Export(Array(records))
  {
    assert ExportAll(records).items == Export(Array(records)).items;
  }

  /** Storing distinct rows under the keys they carry gives a table with just those rows. */
  lemma {:induction false} BulkPutHolds<K(!new)>(n: string, records: seq<Value>, key: KeyOf<K>)
    requires forall r :: r in records ==> key(n, r).Some?
    ensures var rows := BulkPut(n, records, key);
            && rows.Some?
            && (forall k :: k in rows.value ==> rows.value[k] in records && key(n, rows.value[k]) == Some(k))
            && (forall r :: r in records ==> key(n, r).value in rows.value)
  {
    if records != [] {
      var front, last := records[..|records| - 1], records[|records| - 1];
      assert records == front + [last];
      BulkPutHolds(n, front, key);
    }
  }

  lemma BulkPutReturns<K(!new)>(n: string, rows: map<K, Value>, records: seq<Value>, key: KeyOf<K>)
    requires Lists(records, rows)
    requires forall k :: k in rows ==> key(n, rows[k]) == Some(k)
    ensures BulkPut(n, records, key) == Some(rows)
  {
    BulkPutHolds(n, records, key);
    var put := BulkPut(n, records, key).value;
    forall k | k in rows
      ensures k in put
    {
      assert rows[k] in records;
    }
    forall k | k in put
      ensures k in rows && rows[k] == put[k]
    {
      var i :| 0 <= i < |records| && records[i] == put[k];
      var k' :| k' in rows && rows[k'] == records[i];
    }
    assert put.Keys == rows.Keys;
    assert put == rows;
  }

  lemma ListedAreClean<K(!new)>(records: seq<Value>, rows: map<K, Value>)
    requires Lists(records, rows)
    requires forall k :: k in rows ==> Clean(rows[k])
    ensures Clean(Array(records))
  {
    hide Clean;
    forall i | 0 <= i < |records|
      ensures Clean(records[i])
    {
      assert records[i] in records;
      var k: K :| k in rows && rows[k] == records[i];
    }
    ArrayIsClean(records);
  }

  lemma ArrayIsClean(items: seq<Value>)
    requires forall i :: 0 <= i < |items| ==> Clean(items[i])
    ensures Clean(Array(items))
  {
  }

  lemma TableReturns<K(!new)>(n: string, rows: map<K, Value>, t: Tree, key: KeyOf<K>, asString: Tree -> string)
    requires exists records :: Lists(records, rows) && t == ThroughText(ExportAll(records))
    requires forall k :: k in rows ==> key(n, rows[k]) == Some(k) && Clean(rows[k])
    ensures Loaded(n, t, key, asString) == Some(rows)
  {
    var records :| Lists(records, rows) && t == ThroughText(ExportAll(records));
    ListedAreClean(records, rows);
    ExportAllIsExport(records);
    CleanReturns(Array(records), asString);
    BulkPutReturns(n, rows, records, key);
  }

  /** Every row that an import stores is clean. */
  lemma LoadedIsClean<K(!new)>(n: string, t: Tree, key: KeyOf<K>, asString: Tree -> string)
    requires IsText(t) && Loaded(n, t, key, asString).Some?
    ensures forall k :: k in Loaded(n, t, key, asString).value ==> Clean(Loaded(n, t, key, asString).value[k])
  {
    ImportedIsClean(t, asString);
    StoredWereListed(n, Import(t, asString).value.items, key);
  }

  lemma {:induction false} StoredWereListed<K(!new)>(n: string, records: seq<Value>, key: KeyOf<K>)
    requires BulkPut(n, records, key).Some?
    ensures forall k :: k in BulkPut(n, records, key).value ==> BulkPut(n, records, key).value[k] in records
  {
    if records != [] {
      StoredWereListed(n, records[..|records| - 1], key);
    }
  }

  /**
   * Exporting a store and importing the file gives the same store back exactly when every row is clean.
   * What the database held before the import does not matter.
   */
  lemma StoreRoundTripIff<K(!new)>(db: Store<K>, file: File, key: KeyOf<K>, asString: Tree -> string, strict: bool)
    requires db != map[] && Keyed(db, key) && ExportOf(file, db)
    ensures Imported(db.Keys, file, key, asString, strict) == Ok(db)
            <==> forall n, k :: n in db && k in db[n] ==> Clean(db[n][k])
  {
    hide Loaded, Clean, ThroughText;
    assert file != map[] by {
      var n :| n in db;
      assert n in file.Keys;
    }
    if forall n, k :: n in db && k in db[n] ==> Clean(db[n][k]) {
      forall n | n in db
        ensures Loaded(n, file[n], key, asString) == Some(db[n])
      {
        TableReturns(n, db[n], file[n], key, asString);
      }
      ImportedIs(db.Keys, file, key, asString, strict, db);
    }
    if Imported(db.Keys, file, key, asString, strict) == Ok(db) {
      forall n, k | n in db && k in db[n]
        ensures Clean(db[n][k])
      {
        FileIsText(file, db, n);
        assert Loaded(n, file[n], key, asString).Some? && db[n] == Loaded(n, file[n], key, asString).value;
        LoadedIsClean(n, file[n], key, asString);
      }
    }
  }

  lemma FileIsText<K(!new)>(file: File, db: Store<K>, n: string)
    requires ExportOf(file, db) && n in db
    ensures IsText(file[n])
  {
    var records :| Lists(records, db[n]) && file[n] == ThroughText(ExportAll(records));
    ThroughTextIsText(ExportAll(records));
  }

  // ---------------------------------------------------------------- what an import leaves in general

  /** Of records with one key, the last one stays. */
  lemma {:induction false} LastRecordStays<K(!new)>(n: string, records: seq<Value>, key: KeyOf<K>, i: nat, k: K)
    requires i < |records| && key(n, records[i]) == Some(k)
    requires forall j :: i < j < |records| ==> key(n, records[j]) != Some(k)
    requires BulkPut(n, records, key).Some?
    ensures k in BulkPut(n, records, key).value && BulkPut(n, records, key).value[k] == records[i]
  {
    if i < |records| - 1 {
      LastRecordStays(n, records[..|records| - 1], key, i, k);
    }
  }

  /** An import either fails and says why, or leaves every table of the schema, those not in the file empty. */
  lemma ImportLeaves<K(!new)>(names: set<string>, file: File, key: KeyOf<K>, asString: Tree -> string, strict: bool)
    ensures var r := Imported(names, file, key, asString, strict);
            && (r == Err(NoTables) <==> file == map[])
            && (r.Ok? ==> r.value.Keys == names && forall n :: n in names && n !in file ==> r.value[n] == map[])
  {
    hide Loaded;
  }

  // ---------------------------------------------------------------- tables outside the schema

  /** The tables of a file that the schema knows. */
  function Restricted(file: File, names: set<string>): File {
    map n | n in file && n in names :: file[n]
  }

  /** Some table that the schema knows cannot be read back. */
  predicate SomeFails<K(==)>(names: set<string>, file: File, key: KeyOf<K>, asString: Tree -> string) {
    exists n :: n in file && n in names && Loaded(n, file[n], key, asString).None?
  }

  lemma RestrictedFails<K(!new)>(names: set<string>, file: File, key: KeyOf<K>, asString: Tree -> string)
    ensures SomeFails(names, Restricted(file, names), key, asString) <==> SomeFails(names, file, key, asString)
  {
    hide Loaded;
    forall n | n in file && n in names
      ensures n in Restricted(file, names) && Restricted(file, names)[n] == file[n]
    {
    }
  }

  /** Where unknown tables are passed over, the known ones decide. */
  lemma RestrictedLoads<K(!new)>(names: set<string>, file: File, key: KeyOf<K>, asString: Tree -> string, strict: bool)
    requires file != map[] && (strict ==> file.Keys <= names)
    requires Restricted(file, names) != map[]
    ensures Imported(names, file, key, asString, strict)
            == Imported(names, Restricted(file, names), key, asString, strict)
  {
    hide Loaded;
    RestrictedFails(names, file, key, asString);
    var known := Restricted(file, names);
    if !SomeFails(names, file, key, asString) {
      var next := Imported(names, known, key, asString, strict).value;
      ImportedIs(names, file, key, asString, strict, next);
    }
  }

  /**
   * A file counts for no more than its tables inside the schema exactly when it has no other tables; or when
   * it has some of each and unknown names are passed over, or the import fails on the known tables anyway.
   */
  lemma SkipsUnknownIff<K(!new)>(names: set<string>, file: File, key: KeyOf<K>, asString: Tree -> string, strict: bool)
    ensures Imported(names, file, key, asString, strict)
            == Imported(names, Restricted(file, names), key, asString, strict)
            <==> || file.Keys <= names
                 || (Restricted(file, names) != map[] && (!strict || SomeFails(names, file, key, asString)))
  {
    hide Loaded;
    var known := Restricted(file, names);
    RestrictedFails(names, file, key, asString);
    if file.Keys <= names {
      assert known == file;
    } else {
      assert file != map[];
      if known != map[] && !strict {
        RestrictedLoads(names, file, key, asString, strict);
      }
    }
  }

  /** A file that imports well, with one more table that the schema lacks: it aborts, or the table is passed over. */
  lemma ExtraTable<K(!new)>(names: set<string>, file: File, key: KeyOf<K>, asString: Tree -> string, strict: bool,
                            n: string, t: Tree)
    requires Imported(names, file, key, asString, strict).Ok? && n !in names
    ensures Imported(names, file[n := t], key, asString, strict)
            == if strict then Err(Aborted) else Imported(names, file, key, asString, strict)
  {
    hide Loaded;
    var more := file[n := t];
    assert n in more;
    if !strict {
      ImportedIs(names, more, key, asString, strict, Imported(names, file, key, asString, strict).value);
    }
  }

  /** A file with unknown tables only still clears the store where they are passed over. */
  lemma ForeignFileClears<K(!new)>(names: set<string>, file: File, key: KeyOf<K>, asString: Tree -> string)
    requires file != map[] && file.Keys !! names
    ensures Imported(names, file, key, asString, false) == Ok(map n | n in names :: map[])
  {
    hide Loaded;
    ImportedIs(names, file, key, asString, false, map n | n in names :: map[]);
  }

  // ---------------------------------------------------------------- the loops over tables

  lemma ImportedIs<K(!new)>(names: set<string>, file: File, key: KeyOf<K>, asString: Tree -> string, strict: bool,
                            next: Store<K>)
    requires file != map[] && next.Keys == names && (strict ==> file.Keys <= names)
    requires forall n :: n in names && n in file ==> Loaded(n, file[n], key, asString) == Some(next[n])
    requires forall n :: n in names && n !in file ==> next[n] == map[]
    ensures Imported(names, file, key, asString, strict) == Ok(next)
  {
    hide Loaded;
    var whole := Imported(names, file, key, asString, strict);
    assert whole.Ok? && whole.value.Keys == names;
    assert forall n :: n in names ==> whole.value[n] == next[n];
    assert whole.value == next;
  }

  /** Each table's rows in some order (the order of `toArray` is that of the primary keys). */
  method ToArray<K(!new, ==)>(rows: map<K, Value>) returns (records: seq<Value>)
    ensures Lists(records, rows) && |records| == |rows|
  {
    records := [];
    var todo := rows;
    while todo != map[]
      invariant forall k :: k in todo ==> k in rows && rows[k] == todo[k]
      invariant forall i :: 0 <= i < |records| ==> exists k :: k in rows && rows[k] == records[i]
      invariant forall k :: k in rows ==> k in todo || rows[k] in records
      invariant |records| + |todo| == |rows|
      decreases |todo|
    {
      var k :| k in todo;
      records := records + [todo[k]];
      todo := todo - {k};
    }
  }

  class Database<K(!new, ==)> {
    const names: set<string>
    var tables: Store<K>

    ghost predicate Valid()
      reads this
    {
      tables.Keys == names
    }

    constructor (names: set<string>)
      ensures Valid() && this.names == names
      ensures forall n :: n in names ==> tables[n] == map[]
    {
      this.names := names;
      tables := map n | n in names :: map[];
    }

    /** `exportStore`: one entry per table, each filled from all its records. */
    method ExportStore() returns (file: File)
      requires Valid()
      ensures ExportOf(file, tables)
    {
      file := map[];
      var todo := names;
      while todo != {}
        invariant todo <= names
        invariant file.Keys == names - todo
        invariant forall n :: n in file ==>
          exists records :: Lists(records, tables[n]) && file[n] == ThroughText(ExportAll(records))
        decreases |todo|
      {
        var n :| n in todo;
        var records := ToArray(tables[n]);
        file := file[n := ThroughText(ExportAll(records))];
        todo := todo - {n};
      }
    }

    /** `forceImportStore`: clear everything, then refill table by table; a failure leaves the old tables. */
    method ForceImportStore(file: File, key: KeyOf<K>, asString: Tree -> string, strict: bool)
      returns (r: Result<(), ImportError>)
      requires Valid()
      modifies this
      ensures Valid()
      ensures Imported(names, file, key, asString, strict)
              == match r { case Ok(_) => Ok(tables) case Err(e) => Err(e) }
      ensures r.Err? ==> tables == old(tables)
    {
      hide Loaded;
      if file == map[] {
        return Err(NoTables);
      }
      var next: Store<K> := map n | n in names :: map[];
      var todo := file.Keys;
      while todo != {}
        invariant todo <= file.Keys && tables == old(tables)
        invariant next.Keys == names
        invariant strict ==> file.Keys - todo <= names
        invariant forall n :: n in names && n in file && n !in todo ==>
          Loaded(n, file[n], key, asString) == Some(next[n])
        invariant forall n :: n in names && (n !in file || n in todo) ==> next[n] == map[]
        decreases |todo|
      {
        var n :| n in todo;
        if n !in names {
          if strict {
            return Err(Aborted);
          }
        } else {
          var rows := Loaded(n, file[n], key, asString);
          if rows.None? {
            return Err(Aborted);
          }
          next := next[n := rows.value];
        }
        todo := todo - {n};
      }
      ImportedIs(names, file, key, asString, strict, next);
      tables := next;
      return Ok(());
    }
  }
}
