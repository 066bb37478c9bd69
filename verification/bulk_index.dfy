/**
  The record normaliser and document-id derivation of the script that turns
  one JSON file per article into an OpenSearch bulk (NDJSON) file: each
  article becomes an action line naming the index and the document id, and a
  source line holding the normalised record.

  JSON values are a datatype; numbers are integers. Two library calls are
  parameters: the SHA-1 hex digest (`sha1`) and the path component that
  urlparse finds in a string (`pathOf`).
*/
module BulkIndex {
  import opened Wrappers
  import opened Text
  import opened TextFacts

  /** A decoded JSON value (`null` is Python's None). */
  datatype Json =
    | Null
    | Bool(b: bool)
    | Num(n: int)
    | Str(s: string)
    | Arr(items: seq<Json>)
    | Obj(fields: map<string, Json>)

  /** `raw.get(key)`: a missing key reads as None. */
  function Field(raw: map<string, Json>, key: string): Json {
    if key in raw then raw[key] else Null
  }

  // ---------------------------------------------------------------------------
  // coerce_list and normalize_record

  /** `coerce_list`: None is no items, a list is its own items, anything else
      is a one-item list. */
  function CoerceList(v: Json): (items: seq<Json>)
    ensures v.Arr? ==> items == v.items
    ensures !v.Arr? ==> |items| <= 1 && (items == [] <==> v == Null)
    ensures !v.Arr? && v != Null ==> items[0] == v
  {
    match v
    case Null => []
    case Arr(xs) => xs
    case _ => [v]
  }

  /** Coercing a coerced list changes nothing. */
  lemma CoerceListIdempotent(v: Json)
    ensures CoerceList(Arr(CoerceList(v))) == CoerceList(v)
  {
  }

  /** `v in (None, [], "")`: the values the normaliser drops. */
  predicate IsEmptyValue(v: Json) {
    v == Null || v == Arr([]) || v == Str("")
  }

  /** The six fields a normalised record may have. */
  datatype DocField = FullText | Title | Author | Idno | Type | DisplayTitleEnglish

  function FieldName(f: DocField): string {
    match f
    case FullText => "fullText"
    case Title => "title"
    case Author => "author"
    case Idno => "idno"
    case Type => "type"
    case DisplayTitleEnglish => "displayTitleEnglish"
  }

  /** What `normalize_record` builds for each field before dropping empty values:
      title and author as lists, the others copied as they are. */
  function DocValue(raw: map<string, Json>, f: DocField): Json {
    match f
    case Title => Arr(CoerceList(Field(raw, "title")))
    case Author => Arr(CoerceList(Field(raw, "author")))
    case _ => Field(raw, FieldName(f))
  }

  const AllDocFields: set<DocField> := {FullText, Title, Author, Idno, Type, DisplayTitleEnglish}

  /** `normalize_record`: the six fields, with None, empty lists and empty
      strings left out. A raw key outside the six has no field to go to. */
  function NormalizeRecord(raw: map<string, Json>): (doc: map<DocField, Json>)
    ensures forall f | f in doc :: !IsEmptyValue(doc[f])
    ensures Title in doc <==> CoerceList(Field(raw, "title")) != []
    ensures Author in doc <==> CoerceList(Field(raw, "author")) != []
    ensures Title in doc ==> doc[Title].Arr? && doc[Title].items == CoerceList(Field(raw, "title"))
    ensures Author in doc ==> doc[Author].Arr? && doc[Author].items == CoerceList(Field(raw, "author"))
    ensures forall f | f in {FullText, Idno, Type, DisplayTitleEnglish} ::
      (f in doc <==> !IsEmptyValue(Field(raw, FieldName(f))))
      && (f in doc ==> doc[f] == Field(raw, FieldName(f)))
  {
    map f | f in AllDocFields && !IsEmptyValue(DocValue(raw, f)) :: DocValue(raw, f)
  }

  /** The record as the JSON object written on the source line. */
  function ToObject(doc: map<DocField, Json>): (obj: map<string, Json>)
    ensures forall f | f in doc :: FieldName(f) in obj && obj[FieldName(f)] == doc[f]
    ensures forall k | k in obj :: exists f | f in doc :: FieldName(f) == k
  {
    FieldNamesDistinct();
    map f | f in doc :: FieldName(f) := doc[f]
  }

  /** No two fields are written under the same name. */
  lemma FieldNamesDistinct()
    ensures forall f: DocField, g: DocField | FieldName(f) == FieldName(g) :: f == g
  {
  }

  /** Reading a field of the written record finds the field's value. */
  lemma FieldOfObject(doc: map<DocField, Json>, f: DocField)
    ensures Field(ToObject(doc), FieldName(f)) == if f in doc then doc[f] else Null
  {
    var obj := ToObject(doc);
    if FieldName(f) in obj {
      var g :| g in doc && FieldName(g) == FieldName(f);
      assert g == f;
    }
  }

  /** Each field of a normalised record survives normalising again, and each
      missing field stays missing. */
  lemma NormalizeFieldAgain(doc: map<DocField, Json>, f: DocField)
    requires forall g | g in doc :: !IsEmptyValue(doc[g])
    requires Title in doc ==> doc[Title].Arr?
    requires Author in doc ==> doc[Author].Arr?
    ensures f in doc ==> DocValue(ToObject(doc), f) == doc[f]
    ensures f !in doc ==> IsEmptyValue(DocValue(ToObject(doc), f))
  {
    FieldOfObject(doc, f);
  }

  lemma NormalizedFieldAgain(doc: map<DocField, Json>, f: DocField)
    requires forall g | g in doc :: !IsEmptyValue(doc[g])
    requires Title in doc ==> doc[Title].Arr?
    requires Author in doc ==> doc[Author].Arr?
    ensures var again := NormalizeRecord(ToObject(doc));
      (f in again <==> f in doc) && (f in doc ==> again[f] == doc[f])
  {
    NormalizeFieldAgain(doc, f);
    assert f in AllDocFields;
  }

  /** A record without empty values, whose title and author are lists, is
      its own normalisation once written. */
  lemma NormalizeNormalRecord(doc: map<DocField, Json>)
    requires forall g | g in doc :: !IsEmptyValue(doc[g])
    requires Title in doc ==> doc[Title].Arr?
    requires Author in doc ==> doc[Author].Arr?
    ensures NormalizeRecord(ToObject(doc)) == doc
  {
    var again := NormalizeRecord(ToObject(doc));
    forall f ensures (f in again <==> f in doc) && (f in doc ==> again[f] == doc[f]) {
      NormalizedFieldAgain(doc, f);
    }
  }

  /** Normalising the written record again gives the same record. */
  lemma NormalizeIdempotent(raw: map<string, Json>)
    ensures NormalizeRecord(ToObject(NormalizeRecord(raw))) == NormalizeRecord(raw)
  {
    NormalizeNormalRecord(NormalizeRecord(raw));
  }

  // ---------------------------------------------------------------------------
  // Document ids

  /** The characters an id may keep: letters, digits, '.', '_' and '-'. */
  predicate IsSafeIdChar(c: char) {
    'A' <= c <= 'Z' || 'a' <= c <= 'z' || '0' <= c <= '9' || c == '.' || c == '_' || c == '-'
  }

  /** `SAFE_ID_RE.sub("-", s)`: every other character becomes one '-'. */
  function Sanitize(s: string): (r: string)
    ensures |r| == |s|
    ensures forall i | 0 <= i < |r| :: IsSafeIdChar(r[i])
    ensures forall i | 0 <= i < |s| :: r[i] == (if IsSafeIdChar(s[i]) then s[i] else '-')
  {
    seq(|s|, i requires 0 <= i < |s| => if IsSafeIdChar(s[i]) then s[i] else '-')
  }

  predicate IsSlash(c: char) { c == '/' }

  /** The last non-empty '/'-separated segment of a path, or "" when there is none. */
  function LastPathSegment(path: string): (seg: string)
    ensures forall i | 0 <= i < |seg| :: seg[i] != '/'
    ensures seg == "" <==> forall i | 0 <= i < |path| :: path[i] == '/'
  {
    SplitAllSeparators(path, IsSlash);
    var parts := NonEmpty(Split(path, IsSlash));
    if parts == [] then ""
    else
      SplitPiecesFree(path, IsSlash);
      NonEmptyFrom(Split(path, IsSlash));
      var seg := parts[|parts| - 1];
      assert seg in Split(path, IsSlash);
      seg
  }

  /** A trailing slash does not change the last segment. */
  lemma LastSegmentIgnoresTrailingSlash(path: string)
    ensures LastPathSegment(path + "/") == LastPathSegment(path)
  {
    var p := Split(path, IsSlash);
    assert path + "/" == path + ['/'];
    SplitSnocSeparator(path, '/', IsSlash);
    NonEmptyAppend(p, [[]]);
    var empty: seq<string> := [[]];
    assert NonEmpty(empty) == [];
    assert NonEmpty(Split(path + "/", IsSlash)) == NonEmpty(p);
  }

  /** The segment after the last slash is the last segment. */
  lemma LastSegmentAfterSlash(path: string, seg: string)
    requires seg != [] && forall i | 0 <= i < |seg| :: seg[i] != '/'
    ensures LastPathSegment(path + "/" + seg) == seg
  {
    SplitAround(path, '/', seg, IsSlash);
    assert path + "/" + seg == path + ['/'] + seg;
    SplitNoSeparator(seg, IsSlash);
    NonEmptyAppend(Split(path, IsSlash), [seg]);
  }

  /** A path without slashes is its own one segment. */
  lemma BareSegment(seg: string)
    requires seg != [] && forall i | 0 <= i < |seg| :: seg[i] != '/'
    ensures LastPathSegment(seg) == seg
  {
    SplitNoSeparator(seg, IsSlash);
    assert NonEmpty([seg]) == [seg] + NonEmpty([seg][1..]);
  }

  /** A bare article identifier is its own segment. */
  lemma BareArticleId()
    ensures LastPathSegment("hv10n2prkitchen1") == "hv10n2prkitchen1"
  {
    BareSegment("hv10n2prkitchen1");
  }

  /** The article URLs of the journal: the identifier is the last segment,
      with or without a trailing slash. */
  lemma ArticlePaths(id: string)
    requires id != [] && forall i | 0 <= i < |id| :: id[i] != '/'
    ensures LastPathSegment("/article/" + id) == id
    ensures LastPathSegment("/article/" + id + "/") == id
  {
    LastSegmentAfterSlash("/article", id);
    assert "/article" + "/" + id == "/article/" + id;
    LastSegmentIgnoresTrailingSlash("/article/" + id);
  }

  /** `last_segment_from_idno`: the last segment of the URL path of the
      identifier, or the stripped identifier itself when the path has none,
      made safe for an id; None when the identifier is not a non-empty
      string or nothing is left. */
  function LastSegmentFromIdno(idno: Json, pathOf: string -> string): (r: Option<string>)
    ensures r.Some? ==> r.value != "" && forall i | 0 <= i < |r.value| :: IsSafeIdChar(r.value[i])
    ensures !idno.Str? || idno.s == "" ==> r == None
    ensures idno.Str? && idno.s != "" ==>
      (r == None <==> LastPathSegment(pathOf(idno.s)) == "" && AllSpace(idno.s))
    ensures idno.Str? && idno.s != "" && LastPathSegment(pathOf(idno.s)) != "" ==>
      r == Some(Sanitize(LastPathSegment(pathOf(idno.s))))
    ensures idno.Str? && idno.s != "" && LastPathSegment(pathOf(idno.s)) == "" && !AllSpace(idno.s) ==>
      r == Some(Sanitize(Strip(idno.s)))
  {
    match idno
    case Str(s) =>
      if s == "" then None
      else
        var fromPath := LastPathSegment(pathOf(s));
        var seg := if fromPath != "" then fromPath else Strip(s);
        var safe := Sanitize(seg);
        if safe != "" then Some(safe) else None
    case _ => None
  }

  /** An identifier whose URL path ends in a segment gives that segment. */
  lemma IdnoOfArticleUrl(idno: string, pathOf: string -> string, prefix: string, seg: string)
    requires idno != ""
    requires pathOf(idno) == prefix + "/" + seg || pathOf(idno) == prefix + "/" + seg + "/"
    requires seg != [] && forall i | 0 <= i < |seg| :: IsSafeIdChar(seg[i]) && seg[i] != '/'
    ensures LastSegmentFromIdno(Str(idno), pathOf) == Some(seg)
  {
    LastSegmentAfterSlash(prefix, seg);
    LastSegmentIgnoresTrailingSlash(prefix + "/" + seg);
    assert Sanitize(seg) == seg;
  }

  /** `pick_doc_id`: the identifier's segment when there is one, otherwise
      the SHA-1 digest of the fallback (the file's relative path). */
  function PickDocId(raw: map<string, Json>, fallback: string,
                     pathOf: string -> string, sha1: string -> string): (id: string)
    ensures var seg := LastSegmentFromIdno(Field(raw, "idno"), pathOf);
      (seg.Some? ==> id == seg.value) && (seg.None? ==> id == sha1(fallback))
    ensures id == sha1(fallback) || (id != "" && forall i | 0 <= i < |id| :: IsSafeIdChar(id[i]))
  {
    var idno := Field(raw, "idno");
    var seg := if idno.Str? then LastSegmentFromIdno(idno, pathOf) else None;
    match seg
    case Some(s) => if s != "" then s else sha1(fallback)
    case None => sha1(fallback)
  }

  /** `make_action`: the action line of the bulk file. */
  function MakeAction(indexName: string, docId: string): (action: Json)
    ensures ActionTarget(action) == Some((indexName, docId))
  {
    Obj(map["index" := Obj(map["_index" := Str(indexName), "_id" := Str(docId)])])
  }

  /** The index name and document id an action line names, if it is one. */
  function ActionTarget(action: Json): Option<(string, string)> {
    if action.Obj? && "index" in action.fields && action.fields["index"].Obj? then
      var inner := action.fields["index"].fields;
      if "_index" in inner && inner["_index"].Str? && "_id" in inner && inner["_id"].Str? then
        Some((inner["_index"].s, inner["_id"].s))
      else None
    else None
  }

  /** An action line holds nothing but the index name and the id. */
  lemma MakeActionShape(indexName: string, docId: string)
    ensures MakeAction(indexName, docId).fields.Keys == {"index"}
    ensures MakeAction(indexName, docId).fields["index"].fields.Keys == {"_index", "_id"}
  {
  }
}
