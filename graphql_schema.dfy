/**
 * The request layer (app/graphql_schema.py): the input rules applied to uploads and
 * queries, the control flow of storing an upload, the conversion of stored palettes to
 * result nodes, and the mapping of exceptions to the error codes of the GraphQL schema.
 * Hashing, clustering, JSON text, the clock and Python's `str()`/`float()` on arbitrary
 * JSON values are parameters.
 */
module GraphqlSchema {
  import opened Common
  import opened PyText
  import opened Storage
  import ColorHex
  import ExtractColors

  // ---------------------------------------------------------------------------------
  // Clamps
  // ---------------------------------------------------------------------------------

  /** `max(lo, min(hi, v))`. */
  function Clamp(lo: int, hi: int, v: int): (r: int)
    requires lo <= hi
    ensures lo <= r <= hi
    ensures lo <= v <= hi ==> r == v
    ensures v < lo ==> r == lo
    ensures v > hi ==> r == hi
  {
    if v < lo then lo else if v > hi then hi else v
  }

  /** `_clamp_n_colors`: the colour count, between 1 and 12. */
  function ClampNColors(value: int): (n: int)
    ensures 1 <= n <= 12 && (1 <= value <= 12 ==> n == value)
  {
    Clamp(1, 12, value)
  }

  /** The limit `Query.history` passes to the store, between 1 and 100. */
  function HistoryLimit(limit: int): (l: int)
    ensures 1 <= l <= 100 && (1 <= limit <= 100 ==> l == limit)
  {
    Clamp(1, 100, limit)
  }

  // ---------------------------------------------------------------------------------
  // File names
  // ---------------------------------------------------------------------------------

  /** `str.isalnum` on one character (ASCII letters and digits). */
  predicate IsAlnum(c: char) {
    ('0' <= c <= '9') || ('a' <= c <= 'z') || ('A' <= c <= 'Z')
  }

  /** A character `_sanitize_filename` keeps. */
  predicate IsSafe(c: char) {
    IsAlnum(c) || c == '-' || c == '_' || c == '.' || c == ' '
  }

  predicate AllSafe(s: string) {
    forall i :: 0 <= i < |s| ==> IsSafe(s[i])
  }

  /** The name with every character that is not kept replaced by `_`. */
  function SafeChars(filename: string): (m: string)
    ensures |m| == |filename| && AllSafe(m)
    ensures forall i :: 0 <= i < |filename| ==>
      m[i] == (if IsSafe(filename[i]) then filename[i] else '_')
  {
    seq(|filename|, i requires 0 <= i < |filename| =>
      if IsSafe(filename[i]) then filename[i] else '_')
  }

  /**
   * `_sanitize_filename`: the kept characters, others replaced by `_`, stripped; `"upload"`
   * when nothing is left.
   */
  function SanitizeFilename(filename: string): (r: string)
    ensures r != [] && AllSafe(r)
    ensures !IsSpace(r[0]) && !IsSpace(r[|r| - 1])
    ensures Strip(SafeChars(filename)) == [] ==> r == "upload"
    ensures Strip(SafeChars(filename)) != [] ==> r == Strip(SafeChars(filename))
  {
    var m := SafeChars(filename);
    StripKeepsSafe(m);
    var t := Strip(m);
    if t == [] then "upload" else t
  }

  /** Stripping a string of kept characters leaves kept characters. */
  lemma {:induction false} StripKeepsSafe(s: string)
    requires AllSafe(s)
    ensures AllSafe(Strip(s))
    decreases |s|
  {
    if |s| > 0 && IsSpace(s[0]) {
      assert forall i :: 0 <= i < |s| - 1 ==> s[1..][i] == s[i + 1];
      StripKeepsSafe(s[1..]);
    } else if |s| > 0 && IsSpace(s[|s| - 1]) {
      assert forall i :: 0 <= i < |s| - 1 ==> s[..|s| - 1][i] == s[i];
      StripKeepsSafe(s[..|s| - 1]);
    }
  }

  /** A name of kept characters, without surrounding spaces, is its own sanitised form. */
  lemma SanitizeKeepsSafe(name: string)
    requires name != [] && AllSafe(name) && !IsSpace(name[0]) && !IsSpace(name[|name| - 1])
    ensures SanitizeFilename(name) == name
  {
    assert SafeChars(name) == name;
    StripOfStripped(name);
  }

  /** Sanitising twice is sanitising once. */
  lemma SanitizeIdempotent(filename: string)
    ensures SanitizeFilename(SanitizeFilename(filename)) == SanitizeFilename(filename)
  {
    SanitizeKeepsSafe(SanitizeFilename(filename));
  }

  /** No character of `s` is `/`. */
  predicate NoSlash(s: string) {
    forall i :: 0 <= i < |s| ==> s[i] != '/'
  }

  /** A sanitised name holds no `/`, so it cannot leave the upload directory. */
  lemma SanitizedHasNoSlash(filename: string)
    ensures NoSlash(SanitizeFilename(filename))
  {
    var r := SanitizeFilename(filename);
    forall i | 0 <= i < |r| ensures r[i] != '/' {
      assert IsSafe(r[i]);
    }
  }

  /** Where the last path component starts: just after the last `/`, or 0. */
  function NameStart(s: string): (k: nat)
    ensures k <= |s| && (k == 0 || s[k - 1] == '/')
    ensures forall i :: k <= i < |s| ==> s[i] != '/'
  {
    if s == [] then 0
    else if s[|s| - 1] == '/' then |s|
    else
      var k := NameStart(s[..|s| - 1]);
      assert forall i :: 0 <= i < |s| - 1 ==> s[..|s| - 1][i] == s[i];
      k
  }

  /**
   * `Path(p).name` for a POSIX path: the last component, ignoring trailing `/` and `.`
   * components; `""` when there is none.
   */
  function Basename(p: string): (r: string)
    decreases |p|
    ensures NoSlash(r) && r != "."
  {
    if p == [] then ""
    else if p[|p| - 1] == '/' then Basename(p[..|p| - 1])
    else
      var k := NameStart(p);
      if p[k..] == "." then Basename(p[..k]) else p[k..]
  }

  /** After a directory ending in `/` (or after nothing), the last component starts where the name does. */
  lemma NameStartOfJoin(dir: string, name: string)
    requires dir == [] || dir[|dir| - 1] == '/'
    requires NoSlash(name)
    ensures NameStart(dir + name) == |dir|
  {
    var p := dir + name;
    if dir != [] {
      assert p[|dir| - 1] == '/';
    }
    assert forall i :: |dir| <= i < |p| ==> p[i] == name[i - |dir|];
  }

  /** A name after a directory ending in `/` (or after nothing) is the basename. */
  lemma BasenameOfJoin(dir: string, name: string)
    requires dir == [] || dir[|dir| - 1] == '/'
    requires name != [] && NoSlash(name) && name != "."
    ensures Basename(dir + name) == name
  {
    var p := dir + name;
    NameStartOfJoin(dir, name);
    assert p[|p| - 1] == name[|name| - 1];
    assert p[|dir|..] == name;
  }

  /** A single name is its own basename. */
  lemma BasenameOfName(name: string)
    requires name != [] && NoSlash(name) && name != "."
    ensures Basename(name) == name
  {
    BasenameOfJoin([], name);
    assert [] + name == name;
  }

  /** Taking the basename twice is taking it once. */
  lemma BasenameIdempotent(p: string)
    ensures Basename(Basename(p)) == Basename(p)
  {
    if Basename(p) != [] {
      BasenameOfName(Basename(p));
    }
  }

  /** Trailing `/` and `/.` do not change the basename. */
  lemma BasenameIgnoresTrailing(p: string)
    ensures Basename(p + "/") == Basename(p)
    ensures Basename(p + "/.") == Basename(p)
  {
    var q := p + "/";
    assert q[..|q| - 1] == p;
    var d := p + "/.";
    assert d[|d| - 1] == '.' && d[|d| - 2] == '/';
    assert NameStart(d[..|d| - 1]) == |d| - 1;
    assert NameStart(d) == |d| - 1;
    assert d[|d| - 1..] == ".";
    assert d[..|d| - 1] == q;
  }

  /** `_to_upload_url`: the URL the upload is served at. */
  function ToUploadUrl(imagePath: string): (url: string)
    ensures |url| >= 9 && url[..9] == "/uploads/" && NoSlash(url[9..])
    ensures url[9..] == Basename(imagePath)
  {
    "/uploads/" + Basename(imagePath)
  }

  /** `hashlib.sha256(...).hexdigest()`: 64 lowercase hex digits. */
  predicate IsDigest(sha: string) {
    |sha| == 64 && AllLowerHexDigits(sha)
  }

  /** The content-addressed file name `f"{sha[:16]}_{safe_name}"`. */
  function StoredName(sha: string, safeName: string): (name: string)
    ensures IsDigest(sha) ==> name == sha[..16] + "_" + safeName
    ensures IsDigest(sha) ==> |name| == 17 + |safeName| && name[16] == '_'
  {
    Slice(sha, 0, 16) + "_" + safeName
  }

  /** `str(directory / name)` for a directory in `str(Path)` form (no trailing `/` but the root). */
  function JoinPath(dir: string, name: string): (p: string)
    ensures dir == "." ==> p == name
    ensures dir != "." ==> |p| >= |dir| + |name| && p[..|dir|] == dir
  {
    if dir == "." then name
    else if dir != [] && dir[|dir| - 1] == '/' then dir + name
    else dir + "/" + name
  }

  /** A name without `/` joined onto any directory is the basename of the joined path. */
  lemma BasenameOfJoinPath(dir: string, name: string)
    requires name != [] && NoSlash(name) && name != "."
    ensures Basename(JoinPath(dir, name)) == name
  {
    if dir == "." {
      BasenameOfName(name);
    } else if dir != [] && dir[|dir| - 1] == '/' {
      BasenameOfJoin(dir, name);
    } else {
      var d := dir + "/";
      assert dir + "/" + name == d + name;
      BasenameOfJoin(d, name);
    }
  }

  /** The stored name of a sanitised upload holds no `/` and is not `.`. */
  lemma StoredNameIsName(sha: string, filename: string)
    requires IsDigest(sha)
    ensures var name := StoredName(sha, SanitizeFilename(filename));
      name != [] && NoSlash(name) && name != "."
  {
    var safe := SanitizeFilename(filename);
    SanitizedHasNoSlash(filename);
    var name := StoredName(sha, safe);
    forall i | 0 <= i < |name| ensures name[i] != '/' {
      if i < 16 {
        assert name[i] == sha[i];
        assert IsLowerHexDigit(sha[i]);
      } else if i > 16 {
        assert name[i] == safe[i - 17];
      }
    }
  }

  /** The URL of a stored upload is `/uploads/` followed by its stored name. */
  lemma UploadUrlOfStored(dir: string, sha: string, filename: string)
    requires IsDigest(sha)
    ensures ToUploadUrl(JoinPath(dir, StoredName(sha, SanitizeFilename(filename)))) ==
      "/uploads/" + StoredName(sha, SanitizeFilename(filename))
  {
    StoredNameIsName(sha, filename);
    BasenameOfJoinPath(dir, StoredName(sha, SanitizeFilename(filename)));
  }

  /**
   * The name `extract_and_store_upload` records: the basename of the declared file name,
   * or of `"upload"` when there is none or it is empty.
   */
  function OriginalName(filename: Option<string>): (name: string)
    ensures NoSlash(name) && name != "."
    ensures filename == None || filename == Some("") ==> name == "upload"
    ensures filename.Some? && filename.value != "" ==> name == Basename(filename.value)
  {
    var declared := if filename.None? || filename.value == "" then "upload" else filename.value;
    BasenameOfName("upload");
    Basename(declared)
  }

  // ---------------------------------------------------------------------------------
  // Result nodes
  // ---------------------------------------------------------------------------------

  /**
   * Conversions whose outcome the core does not fix: `str()` of a number, list or dict,
   * `float()` of a string, and `_palette_json_pretty` (`json.dumps` with indentation).
   */
  datatype Conversions = Conversions(
    repr: Json -> string,
    parseFloat: string -> Result<real>,
    pretty: seq<Json> -> string)

  datatype OklchColor = OklchColor(l: real, c: real, h: real)

  datatype PaletteColor = PaletteColor(hex: string, oklch: OklchColor)

  datatype ResultNode = ResultNode(
    id: int,
    filename: string,
    sha256: string,
    nColors: int,
    imageUrl: string,
    createdAt: string,
    paletteJsonPretty: string,
    palette: seq<PaletteColor>)

  /** The Python type name of a JSON value. */
  function TypeName(v: Json): string {
    match v
    case JNull => "NoneType"
    case JBool(_) => "bool"
    case JInt(_) => "int"
    case JFloat(_) => "float"
    case JString(_) => "str"
    case JArray(_) => "list"
    case JObject(_) => "dict"
  }

  /** The exception `v.get(...)` raises on a value that is not a dict. */
  function NoGet(v: Json): Exception {
    OtherError("AttributeError", "'" + TypeName(v) + "' object has no attribute 'get'")
  }

  /** `AttributeError: 'str' object has no attribute 'get'`. */
  const StrHasNoGet: Exception := NoGet(JString(""))

  /** Python truthiness, which `or {}` tests. */
  predicate Truthy(v: Json) {
    match v
    case JNull => false
    case JBool(b) => b
    case JInt(i) => i != 0
    case JFloat(f) => f != 0.0
    case JString(s) => s != []
    case JArray(items) => items != []
    case JObject(fields) => fields != map[]
  }

  /** `d.get(key, default)` on a dict. */
  function Get(fields: map<string, Json>, key: string, default: Json): Json {
    if key in fields then fields[key] else default
  }

  /** `str(v)`. */
  function PyStr(v: Json, conv: Conversions): string {
    match v
    case JString(s) => s
    case JNull => "None"
    case JBool(b) => if b then "True" else "False"
    case _ => conv.repr(v)
  }

  /** `float(v)`: numbers convert, strings are parsed, other types raise `TypeError`. */
  function PyFloat(v: Json, conv: Conversions): Result<real> {
    match v
    case JFloat(f) => Success(f)
    case JInt(i) => Success(i as real)
    case JBool(b) => Success(if b then 1.0 else 0.0)
    case JString(s) => conv.parseFloat(s)
    case _ => Failure(OtherError("TypeError",
      "float() argument must be a string or a real number, not '" + TypeName(v) + "'"))
  }

  /** `color.get("oklch") or {}`. */
  function OklchValue(fields: map<string, Json>): Json {
    var got := Get(fields, "oklch", JNull);
    if Truthy(got) then got else JObject(map[])
  }

  /** `float(oklch.get(key, 0.0))`. */
  function Coordinate(oklch: map<string, Json>, key: string, conv: Conversions): Result<real> {
    PyFloat(Get(oklch, key, JFloat(0.0)), conv)
  }

  /**
   * One palette entry of `_to_result_node`: its `hex` as a string (default `""`) and the
   * `L`, `c` and `h` of its `oklch` dict as floats (default 0.0), converted in that order.
   */
  function ColorNode(color: Json, conv: Conversions): (r: Result<PaletteColor>)
    ensures !color.JObject? ==> r == Failure(NoGet(color))
    ensures color.JObject? && !OklchValue(color.fields).JObject? ==>
      r == Failure(NoGet(OklchValue(color.fields)))
  {
    match color
    case JObject(fields) =>
      var hex := PyStr(Get(fields, "hex", JString("")), conv);
      (match OklchValue(fields)
       case JObject(oklch) =>
         (match Coordinate(oklch, "L", conv)
          case Failure(e) => Failure(e)
          case Success(l) =>
            match Coordinate(oklch, "c", conv)
            case Failure(e) => Failure(e)
            case Success(c) =>
              match Coordinate(oklch, "h", conv)
              case Failure(e) => Failure(e)
              case Success(h) => Success(PaletteColor(hex, OklchColor(l, c, h))))
       case other => Failure(NoGet(other)))
    case _ => Failure(NoGet(color))
  }

  /** A converted entry keeps a string `hex`, and every missing field takes its default. */
  lemma ColorNodeDefaults(color: Json, conv: Conversions)
    requires ColorNode(color, conv).Success?
    ensures color.JObject? && OklchValue(color.fields).JObject?
    ensures var node := ColorNode(color, conv).value;
      var oklch := OklchValue(color.fields).fields;
      ("hex" !in color.fields ==> node.hex == "") &&
      ("hex" in color.fields && color.fields["hex"].JString? ==> node.hex == color.fields["hex"].s) &&
      ("L" !in oklch ==> node.oklch.l == 0.0) &&
      ("c" !in oklch ==> node.oklch.c == 0.0) &&
      ("h" !in oklch ==> node.oklch.h == 0.0)
  {
  }

  /** An entry without `oklch`, or with a falsy one, gets the origin as its colour. */
  lemma ColorNodeWithoutOklch(fields: map<string, Json>, conv: Conversions)
    requires "oklch" !in fields || !Truthy(fields["oklch"])
    ensures ColorNode(JObject(fields), conv) ==
      Success(PaletteColor(PyStr(Get(fields, "hex", JString("")), conv), OklchColor(0.0, 0.0, 0.0)))
  {
  }

  /** An entry holding a string `hex` and float coordinates converts to exactly those. */
  lemma ColorNodeOfStoredColor(fields: map<string, Json>, oklch: map<string, Json>,
                               hex: string, l: real, c: real, h: real, conv: Conversions)
    requires "hex" in fields && fields["hex"] == JString(hex)
    requires "oklch" in fields && fields["oklch"] == JObject(oklch)
    requires "L" in oklch && oklch["L"] == JFloat(l)
    requires "c" in oklch && oklch["c"] == JFloat(c)
    requires "h" in oklch && oklch["h"] == JFloat(h)
    ensures ColorNode(JObject(fields), conv) == Success(PaletteColor(hex, OklchColor(l, c, h)))
  {
    assert oklch != map[];
  }

  /** `ColorNode` as a function value, the step of the loop in `_to_result_node`. */
  function ColorConverter(conv: Conversions): Json -> Result<PaletteColor> {
    color => ColorNode(color, conv)
  }

  /** `_to_result_node`: the record's fields, its image URL, its pretty JSON and one node per entry. */
  function ResultNodeOf(p: PaletteResult, conv: Conversions): Result<ResultNode> {
    match Traverse(p.palette, ColorConverter(conv))
    case Failure(e) => Failure(e)
    case Success(nodes) =>
      Success(ResultNode(p.id, p.filename, p.sha256, p.nColors, ToUploadUrl(p.imagePath),
        p.createdAt, conv.pretty(p.palette), nodes))
  }

  /**
   * The node exists exactly when every entry converts; it then holds one node per entry in
   * order, the record's fields and `/uploads/` plus the basename of the image path. Otherwise
   * the first entry that does not convert gives the exception.
   */
  lemma ResultNodeShape(p: PaletteResult, conv: Conversions)
    ensures ResultNodeOf(p, conv).Success? <==>
      forall i :: 0 <= i < |p.palette| ==> ColorNode(p.palette[i], conv).Success?
    ensures ResultNodeOf(p, conv).Success? ==> var node := ResultNodeOf(p, conv).value;
      node.id == p.id && node.filename == p.filename && node.sha256 == p.sha256 &&
      node.nColors == p.nColors && node.createdAt == p.createdAt &&
      node.imageUrl == "/uploads/" + Basename(p.imagePath) &&
      node.paletteJsonPretty == conv.pretty(p.palette) &&
      |node.palette| == |p.palette| &&
      forall i :: 0 <= i < |p.palette| ==> ColorNode(p.palette[i], conv) == Success(node.palette[i])
    ensures ResultNodeOf(p, conv).Failure? ==>
      exists i :: FailsFirstAt(p.palette, i, ColorConverter(conv), ResultNodeOf(p, conv).error)
  {
    TraverseSucceeds(p.palette, ColorConverter(conv));
    if ResultNodeOf(p, conv).Failure? {
      TraverseFails(p.palette, ColorConverter(conv));
    }
  }

  /**
   * The palette `extract_dominant_colors` produces is a list of hex strings, and a string
   * has no `get`: the node of a record whose first entry is a string raises `AttributeError`.
   */
  lemma StringPaletteHasNoNode(p: PaletteResult, conv: Conversions)
    requires |p.palette| > 0 && p.palette[0].JString?
    ensures ResultNodeOf(p, conv) == Failure(StrHasNoGet)
  {
    var f := ColorConverter(conv);
    var first := p.palette[..1];
    assert first[..0] == [] && first[0] == p.palette[0];
    assert f(p.palette[0]) == Failure(StrHasNoGet);
    assert Traverse(first, f) == Failure(StrHasNoGet);
    FailedPrefixDecides(p.palette, 1, f);
  }

  /** `_to_result_node` as it runs: the loop appending one palette node per entry. */
  method ToResultNode(p: PaletteResult, conv: Conversions) returns (r: Result<ResultNode>)
    ensures r == ResultNodeOf(p, conv)
  {
    var nodes: seq<PaletteColor> := [];
    for i := 0 to |p.palette|
      invariant Traverse(p.palette[..i], ColorConverter(conv)) == Success(nodes)
    {
      match ColorNode(p.palette[i], conv)
      case Failure(e) =>
        TraverseStepFails(p.palette, i, ColorConverter(conv));
        return Failure(e);
      case Success(node) =>
        TraverseStepAppends(p.palette, i, ColorConverter(conv));
        nodes := nodes + [node];
    }
    assert p.palette[..|p.palette|] == p.palette;
    r := Success(ResultNode(p.id, p.filename, p.sha256, p.nColors, ToUploadUrl(p.imagePath),
      p.createdAt, conv.pretty(p.palette), nodes));
  }

  // ---------------------------------------------------------------------------------
  // Storing an upload
  // ---------------------------------------------------------------------------------

  /** The upload directory: the bytes written under each path. */
  class UploadDir {
    var files: map<string, seq<Byte>>

    constructor()
      ensures files == map[]
    {
      files := map[];
    }

    /** `Path.write_bytes`: the file at `path` holds `content` afterwards. */
    method WriteBytes(path: string, content: seq<Byte>)
      modifies this
      ensures files == old(files)[path := content]
    {
      files := files[path := content];
    }
  }

  /**
   * The functions the request layer calls into: the SHA-256 hex digest, the image reading
   * and clustering behind `extract_dominant_colors`, the JSON text codec, and the clock
   * (the `created_at` stamp of a saved row).
   */
  datatype Services = Services(
    sha256Hex: seq<Byte> -> string,
    cluster: (string, nat) -> Option<Result<ExtractColors.Clusters>>,
    dumps: seq<Json> -> string,
    loads: string -> Result<Json>,
    now: string)

  /** The palette `extract_dominant_colors` returns, as the JSON list `save_result` encodes. */
  function HexList(colors: seq<string>): (items: seq<Json>)
    ensures |items| == |colors| && forall i :: 0 <= i < |colors| ==> items[i] == JString(colors[i])
  {
    seq(|colors|, i requires 0 <= i < |colors| => JString(colors[i]))
  }

  /** Where `_build_result` writes the upload: the digest prefix and sanitised name in `uploadDir`. */
  function UploadPath(uploadDir: string, sha: string, originalName: string): string {
    JoinPath(uploadDir, StoredName(sha, SanitizeFilename(originalName)))
  }

  /** The record `_build_result` returns from reloading its row; `None` there is a `RuntimeError`. */
  function SavedRecord(saved: Result<Option<PaletteResult>>): Result<PaletteResult> {
    match saved
    case Failure(e) => Failure(e)
    case Success(None) => Failure(RuntimeError("Failed to load saved result."))
    case Success(Some(p)) => Success(p)
  }

  /** What reading and clustering the stored upload gives, for the clamped colour count. */
  function Clustering(env: Services, uploadDir: string, content: seq<Byte>, originalName: string,
                      nColors: int): Option<Result<ExtractColors.Clusters>> {
    env.cluster(UploadPath(uploadDir, env.sha256Hex(content), originalName), ClampNColors(nColors) as nat)
  }

  /**
   * The tail of `_build_result`: save the row and load it again by its new id. The row is
   * always found, so the `RuntimeError` for a missing row is never raised.
   */
  method SaveAndReload(store: RecordStore, originalName: string, sha: string, n: int,
                       colors: seq<string>, uploadPath: string, env: Services)
    returns (r: Result<PaletteResult>)
    requires store.Valid()
    modifies store
    ensures store.Valid() && store.lastId == old(store.lastId) + 1
    ensures store.rows == old(store.rows) +
      [Row(store.lastId, originalName, sha, n, env.dumps(HexList(colors)), uploadPath, env.now)]
    ensures r == RecordOf(store.rows[|store.rows| - 1], env.loads)
  {
    var newId := store.SaveResult(originalName, sha, n, HexList(colors), uploadPath, env.now, env.dumps);
    FindNewRow(old(store.rows), store.rows[|store.rows| - 1]);
    r := SavedRecord(store.GetResult(newId, env.loads));
  }

  /**
   * The middle of `_build_result`: extract the palette of the written file, then save and
   * reload the row. An extraction failure leaves the table as it was.
   */
  method ExtractAndSave(store: RecordStore, uploadPath: string, originalName: string, sha: string,
                        n: nat, env: Services)
    returns (r: Result<PaletteResult>, ghost colors: seq<string>, ghost order: seq<nat>)
    requires store.Valid() && ExtractColors.KeepsPromise(env.cluster(uploadPath, n), n)
    modifies store
    ensures store.Valid()
    ensures !ExtractColors.Clustered(env.cluster(uploadPath, n)) ==>
      store.rows == old(store.rows) && store.lastId == old(store.lastId)
    ensures env.cluster(uploadPath, n).None? ==> r == Failure(ExtractColors.UnreadableImage(uploadPath))
    ensures env.cluster(uploadPath, n).Some? && env.cluster(uploadPath, n).value.Failure? ==>
      r == Failure(env.cluster(uploadPath, n).value.error)
    ensures ExtractColors.Clustered(env.cluster(uploadPath, n)) ==>
      ExtractColors.RankedBy(colors, env.cluster(uploadPath, n).value.value, order) &&
      store.lastId == old(store.lastId) + 1 &&
      store.rows == old(store.rows) +
        [Row(store.lastId, originalName, sha, n, env.dumps(HexList(colors)), uploadPath, env.now)] &&
      r == RecordOf(store.rows[|store.rows| - 1], env.loads)
  {
    colors, order := [], [];
    var extracted, ranking := ExtractColors.ExtractDominantColors(uploadPath, n, env.cluster);
    match extracted
    case Failure(e) =>
      r := Failure(e);
    case Success(palette) =>
      colors, order := palette, ranking;
      r := SaveAndReload(store, originalName, sha, n, palette, uploadPath, env);
  }

  /**
   * `_build_result`: an empty upload raises `ValueError("Empty upload.")` and touches
   * nothing. Otherwise the bytes are written under the content-addressed name, the image is
   * clustered into the clamped number of colours, and a failure there leaves the table as it
   * was; on success one row is appended, holding the clamped count and the ranked palette,
   * and the result is that row reloaded (the row is always found again).
   */
  method BuildResult(store: RecordStore, disk: UploadDir, content: seq<Byte>, originalName: string,
                     nColors: int, uploadDir: string, env: Services)
    returns (r: Result<PaletteResult>, ghost colors: seq<string>, ghost order: seq<nat>)
    requires store.Valid()
    requires ExtractColors.KeepsPromise(Clustering(env, uploadDir, content, originalName, nColors),
      ClampNColors(nColors) as nat)
    modifies store, disk
    ensures store.Valid()
    ensures content == [] ==> r == Failure(ValueError("Empty upload.")) && disk.files == old(disk.files)
    ensures content != [] ==>
      disk.files == old(disk.files)[UploadPath(uploadDir, env.sha256Hex(content), originalName) := content]
    ensures (content == [] || !ExtractColors.Clustered(Clustering(env, uploadDir, content, originalName, nColors))) ==>
      store.rows == old(store.rows) && store.lastId == old(store.lastId)
    ensures (content != [] && Clustering(env, uploadDir, content, originalName, nColors).None?) ==>
      r == Failure(ExtractColors.UnreadableImage(UploadPath(uploadDir, env.sha256Hex(content), originalName)))
    ensures (content != [] && Clustering(env, uploadDir, content, originalName, nColors).Some? &&
             Clustering(env, uploadDir, content, originalName, nColors).value.Failure?) ==>
      r == Failure(Clustering(env, uploadDir, content, originalName, nColors).value.error)
    ensures (content != [] && ExtractColors.Clustered(Clustering(env, uploadDir, content, originalName, nColors))) ==>
      ExtractColors.RankedBy(colors, Clustering(env, uploadDir, content, originalName, nColors).value.value, order) &&
      store.lastId == old(store.lastId) + 1 &&
      store.rows == old(store.rows) + [Row(store.lastId, originalName, env.sha256Hex(content),
        ClampNColors(nColors), env.dumps(HexList(colors)),
        UploadPath(uploadDir, env.sha256Hex(content), originalName), env.now)] &&
      r == RecordOf(store.rows[|store.rows| - 1], env.loads)
  {
    colors, order := [], [];
    var n := ClampNColors(nColors);
    if content == [] {
      return Failure(ValueError("Empty upload.")), colors, order;
    }
    var sha := env.sha256Hex(content);
    var safeName := SanitizeFilename(originalName);
    var uploadPath := JoinPath(uploadDir, StoredName(sha, safeName));
    disk.WriteBytes(uploadPath, content);
    r, colors, order := ExtractAndSave(store, uploadPath, originalName, sha, n as nat, env);
  }

  /**
   * `extract_and_store_upload`: the record name is the basename of the declared file name
   * (or of `"upload"`), and the bytes go to `_build_result`.
   */
  method ExtractAndStoreUpload(store: RecordStore, disk: UploadDir, filename: Option<string>,
                               content: seq<Byte>, nColors: int, uploadDir: string, env: Services)
    returns (r: Result<PaletteResult>, ghost colors: seq<string>, ghost order: seq<nat>)
    requires store.Valid()
    requires ExtractColors.KeepsPromise(Clustering(env, uploadDir, content, OriginalName(filename), nColors),
      ClampNColors(nColors) as nat)
    modifies store, disk
    ensures store.Valid()
    ensures content == [] ==> r == Failure(ValueError("Empty upload.")) && disk.files == old(disk.files)
    ensures content != [] ==>
      disk.files == old(disk.files)[UploadPath(uploadDir, env.sha256Hex(content), OriginalName(filename)) := content]
    ensures (content == [] || !ExtractColors.Clustered(Clustering(env, uploadDir, content, OriginalName(filename), nColors))) ==>
      store.rows == old(store.rows) && store.lastId == old(store.lastId)
    ensures (content != [] && ExtractColors.Clustered(Clustering(env, uploadDir, content, OriginalName(filename), nColors))) ==>
      ExtractColors.RankedBy(colors, Clustering(env, uploadDir, content, OriginalName(filename), nColors).value.value, order) &&
      store.lastId == old(store.lastId) + 1 &&
      store.rows == old(store.rows) + [Row(store.lastId, OriginalName(filename), env.sha256Hex(content),
        ClampNColors(nColors), env.dumps(HexList(colors)),
        UploadPath(uploadDir, env.sha256Hex(content), OriginalName(filename)), env.now)] &&
      r == RecordOf(store.rows[|store.rows| - 1], env.loads)
    ensures (content != [] && !Clustering(env, uploadDir, content, OriginalName(filename), nColors).Some?) ==>
      r == Failure(ExtractColors.UnreadableImage(UploadPath(uploadDir, env.sha256Hex(content), OriginalName(filename))))
    ensures (content != [] && Clustering(env, uploadDir, content, OriginalName(filename), nColors).Some? &&
             Clustering(env, uploadDir, content, OriginalName(filename), nColors).value.Failure?) ==>
      r == Failure(Clustering(env, uploadDir, content, OriginalName(filename), nColors).value.error)
  {
    r, colors, order := BuildResult(store, disk, content, OriginalName(filename), nColors, uploadDir, env);
  }

  // ---------------------------------------------------------------------------------
  // Resolvers and their error mapping
  // ---------------------------------------------------------------------------------

  datatype OperationError = OperationError(message: string, code: string)

  /** A response of the schema: the success type or an `OperationError`. */
  datatype Response<+T> = Succeeded(value: T) | Failed(error: OperationError)

  /** The resolver returned a success value: no exception escaped and no `OperationError`. */
  predicate Answered<T>(r: Result<Response<T>>) {
    r.Success? && r.value.Succeeded?
  }

  /** `_to_result_node` as a function value, the step of the comprehension in `Query.history`. */
  function NodeConverter(conv: Conversions): PaletteResult -> Result<ResultNode> {
    p => ResultNodeOf(p, conv)
  }

  /**
   * `Mutation.extract_palette` once the upload has been handled: a `ValueError` becomes
   * `BAD_REQUEST` with its message, any other exception `INTERNAL_ERROR` with a fixed
   * message. The node is built outside the `try`, so an exception there escapes the resolver.
   */
  function ExtractPaletteResponse(outcome: Result<PaletteResult>, conv: Conversions): (r: Result<Response<ResultNode>>)
    ensures outcome.Failure? && outcome.error.ValueError? ==>
      r == Success(Failed(OperationError(outcome.error.message, "BAD_REQUEST")))
    ensures outcome.Failure? && !outcome.error.ValueError? ==>
      r == Success(Failed(OperationError("Failed to extract palette.", "INTERNAL_ERROR")))
    ensures outcome.Success? ==> (r.Success? <==> ResultNodeOf(outcome.value, conv).Success?)
    ensures outcome.Success? && r.Success? ==> r.value == Succeeded(ResultNodeOf(outcome.value, conv).value)
    ensures outcome.Success? && r.Failure? ==> r.error == ResultNodeOf(outcome.value, conv).error
  {
    match outcome
    case Failure(ValueError(message)) => Success(Failed(OperationError(message, "BAD_REQUEST")))
    case Failure(_) => Success(Failed(OperationError("Failed to extract palette.", "INTERNAL_ERROR")))
    case Success(p) =>
      match ResultNodeOf(p, conv)
      case Failure(e) => Failure(e)
      case Success(node) => Success(Succeeded(node))
  }

  /** `Query.result`: a load error is `INTERNAL_ERROR`, an unknown id `NOT_FOUND`. */
  function ResultResponse(item: Result<Option<PaletteResult>>, conv: Conversions): (r: Result<Response<ResultNode>>)
    ensures item.Failure? ==> r == Success(Failed(OperationError("Failed to load result.", "INTERNAL_ERROR")))
    ensures item == Success(None) ==> r == Success(Failed(OperationError("Result not found.", "NOT_FOUND")))
    ensures item.Success? && item.value.Some? ==>
      (r.Success? <==> ResultNodeOf(item.value.value, conv).Success?) &&
      (r.Success? ==> r.value == Succeeded(ResultNodeOf(item.value.value, conv).value)) &&
      (r.Failure? ==> r.error == ResultNodeOf(item.value.value, conv).error)
  {
    match item
    case Failure(_) => Success(Failed(OperationError("Failed to load result.", "INTERNAL_ERROR")))
    case Success(None) => Success(Failed(OperationError("Result not found.", "NOT_FOUND")))
    case Success(Some(p)) =>
      match ResultNodeOf(p, conv)
      case Failure(e) => Failure(e)
      case Success(node) => Success(Succeeded(node))
  }

  /** `Query.history`: a load error is `INTERNAL_ERROR`; otherwise one node per record. */
  function HistoryResponse(items: Result<seq<PaletteResult>>, conv: Conversions): (r: Result<Response<seq<ResultNode>>>)
    ensures items.Failure? ==> r == Success(Failed(OperationError("Failed to load history.", "INTERNAL_ERROR")))
    ensures items.Success? ==> (r.Success? <==> Traverse(items.value, NodeConverter(conv)).Success?)
    ensures items.Success? && r.Success? ==> r.value == Succeeded(Traverse(items.value, NodeConverter(conv)).value)
    ensures items.Success? && r.Failure? ==> r.error == Traverse(items.value, NodeConverter(conv)).error
  {
    match items
    case Failure(_) => Success(Failed(OperationError("Failed to load history.", "INTERNAL_ERROR")))
    case Success(records) =>
      match Traverse(records, NodeConverter(conv))
      case Failure(e) => Failure(e)
      case Success(nodes) => Success(Succeeded(nodes))
  }

  /**
   * A row saved with the hex strings of a non-empty extraction loads back as those strings,
   * and its node raises `AttributeError`: `_to_result_node` expects dicts.
   */
  lemma SavedPaletteHasNoNode(row: Row, colors: seq<string>, dumps: seq<Json> -> string,
                              loads: string -> Result<Json>, conv: Conversions)
    requires Decodes(dumps, loads) && row.paletteJson == dumps(HexList(colors)) && |colors| > 0
    ensures RecordOf(row, loads).Success? && RecordOf(row, loads).value.palette == HexList(colors)
    ensures ResultNodeOf(RecordOf(row, loads).value, conv) == Failure(StrHasNoGet)
  {
    LoadPaletteRoundTrip(dumps, loads, HexList(colors));
    StringPaletteHasNoNode(RecordOf(row, loads).value, conv);
  }

  /** A row saved from a successful clustering and reloaded makes `extract_palette` raise. */
  lemma ExtractionEscapes(row: Row, colors: seq<string>, k: ExtractColors.Clusters, order: seq<nat>,
                          n: nat, env: Services, conv: Conversions)
    requires ExtractColors.RankedBy(colors, k, order) && ExtractColors.FitsClusters(k, n) && n >= 1
    requires Decodes(env.dumps, env.loads) && row.paletteJson == env.dumps(HexList(colors))
    ensures ExtractPaletteResponse(RecordOf(row, env.loads), conv) == Failure(StrHasNoGet)
  {
    SavedPaletteHasNoNode(row, colors, env.dumps, env.loads, conv);
  }

  /**
   * The `Mutation.extract_palette` resolver. An empty upload is `BAD_REQUEST` "Empty upload.",
   * an unreadable image `INTERNAL_ERROR`, a clustering exception is mapped by its class; and
   * when clustering succeeds and the JSON codec round-trips, the stored palette is a list of
   * strings, so building the node raises `AttributeError` out of the resolver. A non-empty
   * upload is written whatever happens next, and the table gains its row exactly when the
   * clustering succeeds, before the exception escapes. `colors` and `order` are the ranked
   * palette and the cluster order behind that row.
   */
  method ExtractPalette(store: RecordStore, disk: UploadDir, filename: Option<string>, content: seq<Byte>,
                        nColors: int, uploadDir: string, env: Services, conv: Conversions)
    returns (resp: Result<Response<ResultNode>>, ghost colors: seq<string>, ghost order: seq<nat>)
    requires store.Valid()
    requires ExtractColors.KeepsPromise(Clustering(env, uploadDir, content, OriginalName(filename), nColors),
      ClampNColors(nColors) as nat)
    modifies store, disk
    ensures store.Valid()
    ensures content == [] ==> disk.files == old(disk.files)
    ensures content != [] ==>
      disk.files == old(disk.files)[UploadPath(uploadDir, env.sha256Hex(content), OriginalName(filename)) := content]
    ensures (content == [] || !ExtractColors.Clustered(Clustering(env, uploadDir, content, OriginalName(filename), nColors))) ==>
      store.rows == old(store.rows) && store.lastId == old(store.lastId)
    ensures (content != [] && ExtractColors.Clustered(Clustering(env, uploadDir, content, OriginalName(filename), nColors))) ==>
      ExtractColors.RankedBy(colors, Clustering(env, uploadDir, content, OriginalName(filename), nColors).value.value, order) &&
      store.lastId == old(store.lastId) + 1 &&
      store.rows == old(store.rows) + [Row(store.lastId, OriginalName(filename), env.sha256Hex(content),
        ClampNColors(nColors), env.dumps(HexList(colors)),
        UploadPath(uploadDir, env.sha256Hex(content), OriginalName(filename)), env.now)]
    ensures content == [] ==> resp == Success(Failed(OperationError("Empty upload.", "BAD_REQUEST")))
    ensures (content != [] && !Clustering(env, uploadDir, content, OriginalName(filename), nColors).Some?) ==>
      resp == Success(Failed(OperationError("Failed to extract palette.", "INTERNAL_ERROR")))
    ensures (content != [] && Clustering(env, uploadDir, content, OriginalName(filename), nColors).Some? &&
             Clustering(env, uploadDir, content, OriginalName(filename), nColors).value.Failure?) ==>
      resp == ExtractPaletteResponse(
        Failure(Clustering(env, uploadDir, content, OriginalName(filename), nColors).value.error), conv)
    ensures (content != [] && ExtractColors.Clustered(Clustering(env, uploadDir, content, OriginalName(filename), nColors)) &&
             Decodes(env.dumps, env.loads)) ==>
      resp == Failure(StrHasNoGet)
  {
    var outcome;
    outcome, colors, order := ExtractAndStoreUpload(store, disk, filename, content, nColors, uploadDir, env);
    resp := RespondToExtraction(outcome, conv);
    ghost var clustered := Clustering(env, uploadDir, content, OriginalName(filename), nColors);
    if content == [] {
      assert outcome == Failure(ValueError("Empty upload."));
    } else if clustered.None? {
      assert outcome.Failure? && !outcome.error.ValueError?;
    } else if clustered.value.Failure? {
      assert outcome == Failure(clustered.value.error);
    } else if Decodes(env.dumps, env.loads) {
      ExtractionEscapes(store.rows[|store.rows| - 1], colors, clustered.value.value, order,
        ClampNColors(nColors) as nat, env, conv);
    }
  }

  /** The `try`/`except` of `Mutation.extract_palette` and the node built after it. */
  method RespondToExtraction(outcome: Result<PaletteResult>, conv: Conversions)
    returns (resp: Result<Response<ResultNode>>)
    ensures resp == ExtractPaletteResponse(outcome, conv)
  {
    match outcome
    case Failure(ValueError(message)) =>
      resp := Success(Failed(OperationError(message, "BAD_REQUEST")));
    case Failure(_) =>
      resp := Success(Failed(OperationError("Failed to extract palette.", "INTERNAL_ERROR")));
    case Success(p) =>
      var node := ToResultNode(p, conv);
      match node
      case Failure(e) =>
        resp := Failure(e);
      case Success(n) =>
        resp := Success(Succeeded(n));
  }

  /** The `Query.result` resolver over the store. */
  function QueryResult(store: RecordStore, resultId: int, loads: string -> Result<Json>, conv: Conversions):
    Result<Response<ResultNode>>
    reads store
  {
    ResultResponse(store.GetResult(resultId, loads), conv)
  }

  /** An id no row has is reported as `NOT_FOUND`. */
  lemma UnknownIdNotFound(store: RecordStore, resultId: int, loads: string -> Result<Json>, conv: Conversions)
    requires forall i :: 0 <= i < |store.rows| ==> store.rows[i].id != resultId
    ensures QueryResult(store, resultId, loads, conv) ==
      Success(Failed(OperationError("Result not found.", "NOT_FOUND")))
  {
  }

  /** The `Query.history` resolver: the clamped limit goes to `list_results`. */
  method History(store: RecordStore, limit: int, loads: string -> Result<Json>, conv: Conversions)
    returns (resp: Result<Response<seq<ResultNode>>>)
    requires store.Valid()
    ensures resp == HistoryResponse(RecordsOf(Newest(store.rows, HistoryLimit(limit)), loads), conv)
  {
    var items := store.ListResults(HistoryLimit(limit), loads);
    resp := HistoryResponse(items, conv);
  }

  /**
   * A successful history holds at most 100 nodes, as many as the clamped limit allows, with
   * ids strictly decreasing: the newest results first.
   */
  lemma HistoryNewestFirst(rows: seq<Row>, limit: int, loads: string -> Result<Json>, conv: Conversions)
    requires IdsIncreasing(rows)
    requires Answered(HistoryResponse(RecordsOf(Newest(rows, HistoryLimit(limit)), loads), conv))
    ensures var nodes := HistoryResponse(RecordsOf(Newest(rows, HistoryLimit(limit)), loads), conv).value.value;
      |nodes| <= 100 && |nodes| == (if HistoryLimit(limit) < |rows| then HistoryLimit(limit) else |rows|) &&
      forall i, j :: 0 <= i < j < |nodes| ==> nodes[i].id > nodes[j].id
  {
    var l := HistoryLimit(limit);
    var items := RecordsOf(Newest(rows, l), loads);
    assert items.Success?;
    ListedNewestFirst(rows, l, loads);
    var records := items.value;
    TraverseSucceeds(records, NodeConverter(conv));
    var nodes := Traverse(records, NodeConverter(conv)).value;
    forall i | 0 <= i < |records| ensures nodes[i].id == records[i].id {
      assert NodeConverter(conv)(records[i]) == ResultNodeOf(records[i], conv);
      ResultNodeShape(records[i], conv);
    }
  }

  /** The `Mutation.clear_history` resolver: the table is emptied and `ok` is true. */
  method ClearHistory(store: RecordStore) returns (resp: Response<bool>)
    requires store.Valid()
    modifies store
    ensures store.Valid() && store.rows == [] && store.lastId == old(store.lastId)
    ensures resp == Succeeded(true)
  {
    store.ClearResults();
    resp := Succeeded(true);
  }

  /**
   * `clear_history` followed by `history`: whatever the table held and whatever the limit,
   * the history is an empty success.
   */
  method HistoryAfterClear(store: RecordStore, limit: int, loads: string -> Result<Json>, conv: Conversions)
    returns (cleared: Response<bool>, resp: Result<Response<seq<ResultNode>>>)
    requires store.Valid()
    modifies store
    ensures store.Valid() && store.rows == [] && store.lastId == old(store.lastId)
    ensures cleared == Succeeded(true) && resp == Success(Succeeded([]))
  {
    cleared := ClearHistory(store);
    resp := History(store, limit, loads, conv);
  }
}
