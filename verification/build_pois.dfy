/**
 * The build step that turns POI content files into the catalog: each
 * Markdown file's front matter becomes one record, and a record missing an
 * id, a name or numeric coordinates stops the build.
 */
module BuildPois {
  import opened Wrappers
  import opened JsValue
  import Text
  import Catalog

  /** A content file: its base name, its front matter and its Markdown body. */
  datatype SourceFile = SourceFile(name: string, frontMatter: Value, content: string)

  datatype PoiRecord = PoiRecord(
    id: Value,
    name: Value,
    lat: Value,
    lng: Value,
    address: Value,
    tags: Value,
    suggestedDurationMin: Value,
    bestSeasons: Value,
    priceLevel: Value,
    kidFriendly: Value,
    description: string,
    sourceFile: string)

  /** `typeof n === 'number' && Number.isFinite(n)`. */
  predicate IsNumber(v: Value) {
    v.Num?
  }

  /** A non-empty string. */
  predicate GoodText(v: Value) {
    v.Str? && v.s != []
  }

  /** The four checked fields, in the order `validatePoi` checks them. */
  datatype Field = Id | Name | Lat | Lng

  function FieldName(f: Field): string {
    match f
    case Id => "id"
    case Name => "name"
    case Lat => "lat"
    case Lng => "lng"
  }

  function Rank(f: Field): nat {
    match f
    case Id => 0
    case Name => 1
    case Lat => 2
    case Lng => 3
  }

  /** The fields whose check failed, keeping the checks' order. */
  function Failed(checks: seq<(Field, bool)>): (r: seq<Field>)
    ensures forall f :: f in r <==> exists i :: 0 <= i < |checks| && checks[i] == (f, false)
    ensures |r| <= |checks|
  {
    if checks == [] then []
    else
      var rest := Failed(checks[1..]);
      assert forall f ::
        (exists i :: 0 <= i < |checks[1..]| && checks[1..][i] == (f, false))
        <==> (exists i :: 1 <= i < |checks| && checks[i] == (f, false)) by {
        forall f | exists i :: 1 <= i < |checks| && checks[i] == (f, false)
          ensures exists i :: 0 <= i < |checks[1..]| && checks[1..][i] == (f, false)
        {
          var i :| 1 <= i < |checks| && checks[i] == (f, false);
          assert checks[1..][i - 1] == checks[i];
        }
      }
      (if checks[0].1 then [] else [checks[0].0]) + rest
  }

  /** Each check in `validatePoi`'s order: whether the field is acceptable. */
  function Checks(r: PoiRecord): seq<(Field, bool)> {
    [(Id, GoodText(r.id)), (Name, GoodText(r.name)), (Lat, IsNumber(r.lat)), (Lng, IsNumber(r.lng))]
  }

  /** The `missing` list of `validatePoi`: the bad fields, in the order id, name, lat, lng. */
  function MissingFields(r: PoiRecord): (missing: seq<Field>)
    ensures (Id in missing <==> !GoodText(r.id)) && (Name in missing <==> !GoodText(r.name))
    ensures (Lat in missing <==> !IsNumber(r.lat)) && (Lng in missing <==> !IsNumber(r.lng))
  {
    var cs := Checks(r);
    assert cs[0] == (Id, GoodText(r.id)) && cs[1] == (Name, GoodText(r.name));
    assert cs[2] == (Lat, IsNumber(r.lat)) && cs[3] == (Lng, IsNumber(r.lng));
    Failed(cs)
  }

  /** The missing fields are listed in the fixed order id, name, lat, lng. */
  lemma MissingInOrder(r: PoiRecord)
    ensures forall i, j :: 0 <= i < j < |MissingFields(r)| ==> Rank(MissingFields(r)[i]) < Rank(MissingFields(r)[j])
  {
    var cs := Checks(r);
    FailedKeepsOrder(cs, 0);
  }

  lemma {:induction false} FailedKeepsOrder(checks: seq<(Field, bool)>, lo: nat)
    requires forall i, j :: 0 <= i < j < |checks| ==> Rank(checks[i].0) < Rank(checks[j].0)
    requires forall i :: 0 <= i < |checks| ==> lo <= Rank(checks[i].0)
    ensures forall i, j :: 0 <= i < j < |Failed(checks)| ==> Rank(Failed(checks)[i]) < Rank(Failed(checks)[j])
    ensures forall i :: 0 <= i < |Failed(checks)| ==> lo <= Rank(Failed(checks)[i])
  {
    if checks != [] {
      var tail := checks[1..];
      var next := Rank(checks[0].0) + 1;
      assert forall i :: 0 <= i < |tail| ==> tail[i] == checks[i + 1];
      FailedKeepsOrder(tail, next);
    }
  }

  predicate Valid(r: PoiRecord) {
    GoodText(r.id) && GoodText(r.name) && IsNumber(r.lat) && IsNumber(r.lng)
  }

  /** Validation fails exactly when something is missing. */
  lemma MissingIffInvalid(r: PoiRecord)
    ensures MissingFields(r) == [] <==> Valid(r)
  {
    if MissingFields(r) != [] {
      var f := MissingFields(r)[0];
      assert f in MissingFields(r);
    }
  }

  /** `fm.key` of `parsed.data || {}`. */
  function FrontField(fm: Value, key: string): Value {
    Get(OrElse(fm, Obj([])), key)
  }

  /** The record built from one file. */
  function Record(f: SourceFile): PoiRecord {
    var fm := f.frontMatter;
    PoiRecord(
      FrontField(fm, "id"), FrontField(fm, "name"), FrontField(fm, "lat"), FrontField(fm, "lng"),
      FrontField(fm, "address"),
      OrElse(FrontField(fm, "tags"), Arr([])),
      FrontField(fm, "suggested_duration_min"),
      OrElse(FrontField(fm, "best_seasons"), Arr([])),
      FrontField(fm, "price_level"),
      FrontField(fm, "kid_friendly"),
      Text.Trim(f.content),
      f.name)
  }

  /**
   * The record copies the front matter's fields, gives `tags` and
   * `best_seasons` an empty list when they are missing or falsy, and takes
   * the body without surrounding whitespace as its description.
   */
  lemma RecordFields(f: SourceFile)
    ensures var r := Record(f);
      && r.id == FrontField(f.frontMatter, "id") && r.name == FrontField(f.frontMatter, "name")
      && r.lat == FrontField(f.frontMatter, "lat") && r.lng == FrontField(f.frontMatter, "lng")
      && Truthy(r.tags) && Truthy(r.bestSeasons)
      && (!Truthy(FrontField(f.frontMatter, "tags")) ==> r.tags == Arr([]))
      && (!Truthy(FrontField(f.frontMatter, "best_seasons")) ==> r.bestSeasons == Arr([]))
      && (Truthy(FrontField(f.frontMatter, "tags")) ==> r.tags == FrontField(f.frontMatter, "tags"))
      && (Truthy(FrontField(f.frontMatter, "best_seasons")) ==> r.bestSeasons == FrontField(f.frontMatter, "best_seasons"))
      && r.address == FrontField(f.frontMatter, "address")
      && r.suggestedDurationMin == FrontField(f.frontMatter, "suggested_duration_min")
      && r.priceLevel == FrontField(f.frontMatter, "price_level")
      && r.kidFriendly == FrontField(f.frontMatter, "kid_friendly")
      && r.sourceFile == f.name
      && r.description == Text.Trim(f.content)
      && Text.NonSpace(r.description) == Text.NonSpace(f.content)
      && (r.description == [] || (!Text.IsSpace(r.description[0]) && !Text.IsSpace(r.description[|r.description| - 1])))
  {
    Text.TrimKeepsText(f.content);
  }

  predicate EndsWith(s: string, suffix: string) {
    |suffix| <= |s| && s[|s| - |suffix|..] == suffix
  }

  predicate IsContentFile(f: SourceFile) {
    EndsWith(f.name, ".md") || EndsWith(f.name, ".mdx")
  }

  /** The `.md` and `.mdx` files, in directory order. */
  function ContentFiles(files: seq<SourceFile>): (r: seq<SourceFile>)
    ensures |r| <= |files|
    ensures forall i :: 0 <= i < |r| ==> IsContentFile(r[i])
  {
    if files == [] then []
    else (if IsContentFile(files[0]) then [files[0]] else []) + ContentFiles(files[1..])
  }

  /** Exactly the `.md` and `.mdx` files are kept. */
  lemma {:induction false} ContentFilesExact(files: seq<SourceFile>, f: SourceFile)
    ensures f in ContentFiles(files) <==> f in files && IsContentFile(f)
  {
    if files != [] {
      ContentFilesExact(files[1..], f);
      assert files == [files[0]] + files[1..];
    }
  }

  /** The filter works file by file, so the kept files stay in directory order. */
  lemma {:induction false} ContentFilesAppend(a: seq<SourceFile>, b: seq<SourceFile>)
    ensures ContentFiles(a + b) == ContentFiles(a) + ContentFiles(b)
  {
    if a == [] {
      assert a + b == b;
    } else {
      var h := if IsContentFile(a[0]) then [a[0]] else [];
      calc {
        ContentFiles(a + b);
        { assert (a + b)[0] == a[0] && (a + b)[1..] == a[1..] + b; }
        h + ContentFiles(a[1..] + b);
        { ContentFilesAppend(a[1..], b); }
        h + (ContentFiles(a[1..]) + ContentFiles(b));
        (h + ContentFiles(a[1..])) + ContentFiles(b);
      }
    }
  }

  /** The failure message, naming the fields and the file. */
  function FailureMessage(missing: seq<Field>, file: string): string {
    var names := seq(|missing|, i requires 0 <= i < |missing| => FieldName(missing[i]));
    "POI frontmatter missing/invalid fields: " + Text.JoinWith(names, ", ") + "\nFile: " + file
  }

  /** Every record passes validation. */
  predicate AllValid(recs: seq<PoiRecord>) {
    forall i :: 0 <= i < |recs| ==> Valid(recs[i])
  }

  /** The records of the files, in file order. */
  function Records(files: seq<SourceFile>): (recs: seq<PoiRecord>)
    ensures |recs| == |files|
    ensures forall i :: 0 <= i < |files| ==> recs[i] == Record(files[i])
  {
    seq(|files|, i requires 0 <= i < |files| => Record(files[i]))
  }

  /** `validatePoi` on each record in turn: all of them, or the first failure. */
  function CheckAll(recs: seq<PoiRecord>): (r: Result<seq<PoiRecord>, string>)
    ensures r.Ok? <==> AllValid(recs)
    ensures r.Ok? ==> r.value == recs
  {
    if recs == [] then Ok([])
    else if !Valid(recs[0]) then Err(FailureMessage(MissingFields(recs[0]), recs[0].sourceFile))
    else
      var rest := CheckAll(recs[1..]);
      assert AllValid(recs) <==> AllValid(recs[1..]) by {
        if AllValid(recs[1..]) {
          forall i | 0 < i < |recs| ensures Valid(recs[i]) {
            assert recs[i] == recs[1..][i - 1];
          }
        }
      }
      if rest.Err? then rest else Ok([recs[0]] + rest.value)
  }

  /** A failing check reports the first invalid record and its missing fields. */
  lemma {:induction false} CheckAllFailsAtFirst(recs: seq<PoiRecord>, k: nat)
    requires k < |recs| && !Valid(recs[k])
    requires forall i :: 0 <= i < k ==> Valid(recs[i])
    ensures CheckAll(recs) == Err(FailureMessage(MissingFields(recs[k]), recs[k].sourceFile))
  {
    if k > 0 {
      assert Valid(recs[0]);
      var tail := recs[1..];
      assert tail[k - 1] == recs[k];
      assert forall i :: 0 <= i < k - 1 ==> Valid(tail[i]) by {
        forall i | 0 <= i < k - 1 ensures Valid(tail[i]) {
          assert tail[i] == recs[i + 1];
        }
      }
      CheckAllFailsAtFirst(tail, k - 1);
    }
  }

  /**
   * The build: no content directory gives an empty catalog; otherwise every
   * content file yields exactly one record, in order, or the build fails.
   */
  function Build(directory: Option<seq<SourceFile>>): (r: Result<seq<PoiRecord>, string>)
    ensures directory.None? ==> r == Ok([])
    ensures directory.Some? ==>
      && (r.Ok? <==> AllValid(Records(ContentFiles(directory.value))))
      && (r.Ok? ==> |r.value| == |ContentFiles(directory.value)|
                    && forall i :: 0 <= i < |r.value| ==> r.value[i] == Record(ContentFiles(directory.value)[i]) && Valid(r.value[i]))
  {
    match directory
    case None => Ok([])
    case Some(files) => CheckAll(Records(ContentFiles(files)))
  }

  /** A valid record as the catalog entry the endpoint reads. */
  function ToCatalogPoi(r: PoiRecord): (p: Catalog.Poi)
    requires Valid(r)
    ensures p.id == r.id.s && p.name == r.name.s && p.lat == r.lat.x && p.lng == r.lng.x
    ensures p.tags == r.tags && p.description == r.description
    ensures p.id != [] && p.name != []
  {
    Catalog.Poi(r.id.s, r.name.s, r.lat.x, r.lng.x, r.tags, r.description)
  }

  /** The written catalog file as the endpoint reads it back: one entry per record, in order. */
  function BuiltCatalog(recs: seq<PoiRecord>): (c: seq<Catalog.Poi>)
    requires AllValid(recs)
    ensures |c| == |recs|
    ensures forall i :: 0 <= i < |recs| ==> c[i] == ToCatalogPoi(recs[i])
  {
    seq(|recs|, i requires 0 <= i < |recs| => ToCatalogPoi(recs[i]))
  }

  /** The content files a build reads: none without a content directory. */
  function BuildFiles(directory: Option<seq<SourceFile>>): seq<SourceFile> {
    if directory.Some? then ContentFiles(directory.value) else []
  }

  /** Some content file's front matter declares the id `x`. */
  predicate Declares(files: seq<SourceFile>, x: string) {
    exists i :: 0 <= i < |files| && FrontField(files[i].frontMatter, "id") == Str(x)
  }

  /** Each built catalog entry carries the id its file's front matter declares. */
  lemma BuiltEntryId(directory: Option<seq<SourceFile>>, i: nat)
    requires Build(directory).Ok? && i < |BuildFiles(directory)|
    ensures |BuiltCatalog(Build(directory).value)| == |BuildFiles(directory)|
    ensures FrontField(BuildFiles(directory)[i].frontMatter, "id") == Str(BuiltCatalog(Build(directory).value)[i].id)
  {
    var recs := Build(directory).value;
    assert recs[i] == Record(BuildFiles(directory)[i]) && Valid(recs[i]);
    RecordFields(BuildFiles(directory)[i]);
  }

  /** An offered id comes from a file's front matter and is not excluded. */
  lemma OfferedIsDeclared(directory: Option<seq<SourceFile>>, exclude: Value, x: string)
    requires Build(directory).Ok?
    requires x in Catalog.Ids(Catalog.Candidates(BuiltCatalog(Build(directory).value), exclude))
    ensures Declares(BuildFiles(directory), x) && !Catalog.Excluded(exclude, x)
  {
    var files := BuildFiles(directory);
    var cat := BuiltCatalog(Build(directory).value);
    var i := OfferedEntry(cat, exclude, x);
    BuiltEntryId(directory, i);
    assert 0 <= i < |files| && FrontField(files[i].frontMatter, "id") == Str(x);
  }

  /** The position of a catalog entry whose id is offered. */
  lemma OfferedEntry(cat: seq<Catalog.Poi>, exclude: Value, x: string) returns (i: nat)
    requires x in Catalog.Ids(Catalog.Candidates(cat, exclude))
    ensures i < |cat| && cat[i].id == x && !Catalog.Excluded(exclude, x)
  {
    Catalog.CandidateIdsTraceable(cat, exclude);
    assert x in set p | p in cat && !Catalog.Excluded(exclude, p.id) :: p.id;
    var p :| p in cat && !Catalog.Excluded(exclude, p.id) && p.id == x;
    var k :| 0 <= k < |cat| && cat[k] == p;
    i := k;
  }

  /** A declared id that is not excluded is offered. */
  lemma DeclaredIsOffered(directory: Option<seq<SourceFile>>, exclude: Value, x: string)
    requires Build(directory).Ok?
    requires Declares(BuildFiles(directory), x) && !Catalog.Excluded(exclude, x)
    ensures x in Catalog.Ids(Catalog.Candidates(BuiltCatalog(Build(directory).value), exclude))
  {
    var files := BuildFiles(directory);
    var cat := BuiltCatalog(Build(directory).value);
    var i :| 0 <= i < |files| && FrontField(files[i].frontMatter, "id") == Str(x);
    BuiltEntryId(directory, i);
    assert cat[i] in cat && cat[i].id == x;
    Catalog.CandidateIdsTraceable(cat, exclude);
  }

  /**
   * From build to endpoint: after a successful build, an id is offered to
   * the model exactly when some content file's front matter declares it and
   * the request does not exclude it.
   */
  lemma BuiltIdsOffered(directory: Option<seq<SourceFile>>, exclude: Value, x: string)
    requires Build(directory).Ok?
    ensures x in Catalog.Ids(Catalog.Candidates(BuiltCatalog(Build(directory).value), exclude))
      <==> Declares(BuildFiles(directory), x) && !Catalog.Excluded(exclude, x)
  {
    if x in Catalog.Ids(Catalog.Candidates(BuiltCatalog(Build(directory).value), exclude)) {
      OfferedIsDeclared(directory, exclude, x);
    }
    if Declares(BuildFiles(directory), x) && !Catalog.Excluded(exclude, x) {
      DeclaredIsOffered(directory, exclude, x);
    }
  }
}
