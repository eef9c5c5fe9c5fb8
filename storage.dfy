/**
 * The record store (app/storage.py): the `palette_results` table as an in-memory sequence
 * of rows with AUTOINCREMENT ids, and the decoding of the stored palette JSON. The JSON
 * text codec and the clock are parameters.
 */
module Storage {
  import opened Common

  /** A JSON value as `json.loads` returns it. */
  datatype Json =
    | JNull
    | JBool(b: bool)
    | JInt(i: int)
    | JFloat(f: real)
    | JString(s: string)
    | JArray(items: seq<Json>)
    | JObject(fields: map<string, Json>)

  /** The value `_load_palette` is given: a string, a list, or a value of another type. */
  datatype Cell = Text(text: string) | List(items: seq<Json>) | OtherValue

  /**
   * `_load_palette`: a string holds JSON text and gives the list it decodes to, or `[]`
   * when it decodes to something else; a list is returned as it is; anything else gives
   * `[]`. A decode error propagates.
   */
  function LoadPalette(value: Cell, loads: string -> Result<Json>): (r: Result<seq<Json>>)
    ensures value.List? ==> r == Success(value.items)
    ensures value.OtherValue? ==> r == Success([])
    ensures value.Text? && loads(value.text).Failure? ==> r == Failure(loads(value.text).error)
    ensures value.Text? && loads(value.text).Success? ==>
      r == Success(if loads(value.text).value.JArray? then loads(value.text).value.items else [])
  {
    match value
    case Text(t) =>
      (match loads(t)
       case Failure(e) => Failure(e)
       case Success(loaded) => if loaded.JArray? then Success(loaded.items) else Success([]))
    case List(items) => Success(items)
    case OtherValue => Success([])
  }

  /** `json.dumps` and `json.loads` as a pair: decoding what was encoded gives the list back. */
  ghost predicate Decodes(dumps: seq<Json> -> string, loads: string -> Result<Json>) {
    forall xs :: loads(dumps(xs)) == Success(JArray(xs))
  }

  /** A palette saved as JSON text loads back unchanged. */
  lemma LoadPaletteRoundTrip(dumps: seq<Json> -> string, loads: string -> Result<Json>, xs: seq<Json>)
    requires Decodes(dumps, loads)
    ensures LoadPalette(Text(dumps(xs)), loads) == Success(xs)
  {
    assert loads(dumps(xs)) == Success(JArray(xs));
  }

  /** JSON text of something other than a list loads as the empty palette. */
  lemma LoadPaletteOfNonList(t: string, loads: string -> Result<Json>)
    requires loads(t).Success? && !loads(t).value.JArray?
    ensures LoadPalette(Text(t), loads) == Success([])
  {
  }

  /** One row of `palette_results`, as stored. */
  datatype Row = Row(
    id: int,
    filename: string,
    sha256: string,
    nColors: int,
    paletteJson: string,
    imagePath: string,
    createdAt: string)

  /** The `PaletteResult` record the store hands out. */
  datatype PaletteResult = PaletteResult(
    id: int,
    filename: string,
    sha256: string,
    nColors: int,
    palette: seq<Json>,
    imagePath: string,
    createdAt: string)

  /** The record built from a row: its fields, with the palette decoded by `_load_palette`. */
  function RecordOf(row: Row, loads: string -> Result<Json>): (r: Result<PaletteResult>)
    ensures r.Success? <==> LoadPalette(Text(row.paletteJson), loads).Success?
    ensures r.Success? ==> var p := r.value;
      p.id == row.id && p.filename == row.filename && p.sha256 == row.sha256 &&
      p.nColors == row.nColors && p.imagePath == row.imagePath && p.createdAt == row.createdAt &&
      p.palette == LoadPalette(Text(row.paletteJson), loads).value
  {
    match LoadPalette(Text(row.paletteJson), loads)
    case Failure(e) => Failure(e)
    case Success(palette) =>
      Success(PaletteResult(row.id, row.filename, row.sha256, row.nColors, palette,
        row.imagePath, row.createdAt))
  }

  /** `RecordOf` as a function value, the step `list_results` takes per row. */
  function Loader(loads: string -> Result<Json>): Row -> Result<PaletteResult> {
    row => RecordOf(row, loads)
  }

  /**
   * The records of several rows, in order, built one row after another as `list_results`
   * does; the first row whose palette fails to decode gives the error (see
   * `Common.TraverseSucceeds` and `Common.TraverseFails`).
   */
  function RecordsOf(rows: seq<Row>, loads: string -> Result<Json>): Result<seq<PaletteResult>> {
    Traverse(rows, Loader(loads))
  }

  /** Ids strictly increase along the table, as AUTOINCREMENT assigns them. */
  predicate IdsIncreasing(rows: seq<Row>) {
    forall i, j :: 0 <= i < j < |rows| ==> rows[i].id < rows[j].id
  }

  /** The row with the given id, if the table has one. */
  function FindRow(rows: seq<Row>, id: int): (r: Option<Row>)
    ensures r.Some? ==> r.value in rows && r.value.id == id
    ensures r.None? <==> forall i :: 0 <= i < |rows| ==> rows[i].id != id
  {
    if rows == [] then None
    else if rows[0].id == id then Some(rows[0])
    else
      var r := FindRow(rows[1..], id);
      assert forall i :: 0 < i < |rows| ==> rows[i] == rows[1..][i - 1];
      r
  }

  /** With ids increasing, the row just appended is the one found under its id. */
  lemma FindNewRow(rows: seq<Row>, row: Row)
    requires IdsIncreasing(rows + [row])
    ensures FindRow(rows + [row], row.id) == Some(row)
  {
    var all := rows + [row];
    assert all[|rows|] == row;
    assert forall i :: 0 <= i < |all| && all[i].id == row.id ==> all[i] == row;
  }

  /** The rows in reverse order. */
  function Reverse(rows: seq<Row>): (r: seq<Row>)
    ensures |r| == |rows| && forall i :: 0 <= i < |rows| ==> r[i] == rows[|rows| - 1 - i]
  {
    if rows == [] then [] else [rows[|rows| - 1]] + Reverse(rows[..|rows| - 1])
  }

  /**
   * `ORDER BY id DESC LIMIT limit` over a table whose ids increase along it: the rows
   * newest first, cut to `limit` of them; a negative limit means no limit in SQLite.
   */
  function Newest(rows: seq<Row>, limit: int): (r: seq<Row>)
    ensures limit >= 0 ==> |r| == if limit < |rows| then limit else |rows|
    ensures limit < 0 ==> |r| == |rows|
    ensures forall i :: 0 <= i < |r| ==> r[i] == rows[|rows| - 1 - i]
  {
    var all := Reverse(rows);
    if limit < 0 || limit >= |all| then all else all[..limit]
  }

  /** The selected rows come newest first: their ids strictly decrease. */
  lemma NewestIdsDecrease(rows: seq<Row>, limit: int)
    requires IdsIncreasing(rows)
    ensures var r := Newest(rows, limit);
      forall i, j :: 0 <= i < j < |r| ==> r[i].id > r[j].id
  {
  }

  /**
   * The selected rows are the newest ones: every row of the table left out has a smaller
   * id than every row selected.
   */
  lemma NewestAreLatest(rows: seq<Row>, limit: int)
    requires IdsIncreasing(rows)
    ensures var r := Newest(rows, limit);
      forall i, k :: 0 <= i < |r| && 0 <= k < |rows| - |r| ==> rows[k].id < r[i].id
  {
    var r := Newest(rows, limit);
    forall i, k | 0 <= i < |r| && 0 <= k < |rows| - |r| ensures rows[k].id < r[i].id {
      assert r[i] == rows[|rows| - 1 - i];
    }
  }

  /** The table: its rows in insertion order and the largest id AUTOINCREMENT has handed out. */
  class RecordStore {
    var rows: seq<Row>
    var lastId: int

    /** Ids increase, and none is above the last id handed out. */
    predicate Valid()
      reads this
    {
      IdsIncreasing(rows) && lastId >= 0 &&
      forall i :: 0 <= i < |rows| ==> 1 <= rows[i].id <= lastId
    }

    /** `init_db` on a new database: an empty table. */
    constructor()
      ensures Valid() && rows == [] && lastId == 0
    {
      rows := [];
      lastId := 0;
    }

    /**
     * `save_result`: insert a row holding `int(n_colors)` and the palette as JSON text,
     * and return its id, one above every id handed out before.
     */
    method SaveResult(filename: string, sha256: string, nColors: int, palette: seq<Json>,
                      imagePath: string, createdAt: string, dumps: seq<Json> -> string)
      returns (id: int)
      requires Valid()
      modifies this
      ensures Valid()
      ensures id == old(lastId) + 1 && lastId == id
      ensures rows == old(rows) + [Row(id, filename, sha256, nColors, dumps(palette), imagePath, createdAt)]
    {
      id := lastId + 1;
      rows := rows + [Row(id, filename, sha256, nColors, dumps(palette), imagePath, createdAt)];
      lastId := id;
    }

    /**
     * `get_result`: no record when no row has the id; otherwise the record of that row,
     * or the decode error of its palette.
     */
    function GetResult(resultId: int, loads: string -> Result<Json>): (r: Result<Option<PaletteResult>>)
      reads this
      ensures r == Success(None) <==> FindRow(rows, resultId).None?
      ensures FindRow(rows, resultId).Some? ==>
        r == (match RecordOf(FindRow(rows, resultId).value, loads)
              case Failure(e) => Failure(e)
              case Success(p) => Success(Some(p)))
    {
      match FindRow(rows, resultId)
      case None => Success(None)
      case Some(row) =>
        match RecordOf(row, loads)
        case Failure(e) => Failure(e)
        case Success(p) => Success(Some(p))
    }

    /**
     * `list_results`: the records of the newest `limit` rows, newest first, built one at a
     * time; a palette that fails to decode ends the call with its error.
     */
    method ListResults(limit: int, loads: string -> Result<Json>) returns (out: Result<seq<PaletteResult>>)
      ensures out == RecordsOf(Newest(rows, limit), loads)
    {
      var selected := Newest(rows, limit);
      var acc: seq<PaletteResult> := [];
      for i := 0 to |selected|
        invariant RecordsOf(selected[..i], loads) == Success(acc)
      {
        match RecordOf(selected[i], loads)
        case Failure(e) =>
          TraverseStepFails(selected, i, Loader(loads));
          return Failure(e);
        case Success(record) =>
          TraverseStepAppends(selected, i, Loader(loads));
          acc := acc + [record];
      }
      assert selected[..|selected|] == selected;
      out := Success(acc);
    }

    /** `clear_results`: delete every row; AUTOINCREMENT keeps its last id. */
    method ClearResults()
      requires Valid()
      modifies this
      ensures Valid() && rows == [] && lastId == old(lastId)
    {
      rows := [];
    }
  }

  /**
   * A successful listing holds at most `limit` records (all of them for a negative limit),
   * the records of the newest rows, with ids strictly decreasing.
   */
  lemma ListedNewestFirst(rows: seq<Row>, limit: int, loads: string -> Result<Json>)
    requires IdsIncreasing(rows) && RecordsOf(Newest(rows, limit), loads).Success?
    ensures var out := RecordsOf(Newest(rows, limit), loads).value;
      |out| == |Newest(rows, limit)| && (limit >= 0 ==> |out| <= limit) &&
      (forall i :: 0 <= i < |out| ==> RecordOf(rows[|rows| - 1 - i], loads) == Success(out[i])) &&
      forall i, j :: 0 <= i < j < |out| ==> out[i].id > out[j].id
  {
    var sel := Newest(rows, limit);
    TraverseSucceeds(sel, Loader(loads));
    NewestIdsDecrease(rows, limit);
    var out := RecordsOf(sel, loads).value;
    assert forall i :: 0 <= i < |out| ==> RecordOf(sel[i], loads) == Success(out[i]);
  }

  /**
   * `clear_results` followed by `list_results`: whatever the table held and whatever the
   * limit, the listing is an empty success, and the next id is still one above the old one.
   */
  method ListAfterClear(store: RecordStore, limit: int, loads: string -> Result<Json>)
    returns (out: Result<seq<PaletteResult>>)
    requires store.Valid()
    modifies store
    ensures store.Valid() && store.rows == [] && store.lastId == old(store.lastId)
    ensures out == Success([])
  {
    store.ClearResults();
    out := store.ListResults(limit, loads);
  }

  /**
   * `list_image_paths`: the image path of every row, in table order, leaving out empty
   * paths (the column is NOT NULL, so no row holds NULL).
   */
  function ImagePaths(rows: seq<Row>): (paths: seq<string>)
    ensures |paths| <= |rows|
  {
    if rows == [] then []
    else if rows[0].imagePath != "" then [rows[0].imagePath] + ImagePaths(rows[1..])
    else ImagePaths(rows[1..])
  }

  /** Some row of `rows` has image path `p`. */
  predicate HasImage(rows: seq<Row>, p: string) {
    exists i :: 0 <= i < |rows| && rows[i].imagePath == p
  }

  /** The listed paths are exactly the non-empty image paths of the rows. */
  lemma {:induction false} ImagePathsMembers(rows: seq<Row>, p: string)
    ensures p in ImagePaths(rows) <==> p != "" && HasImage(rows, p)
  {
    if rows != [] {
      ImagePathsMembers(rows[1..], p);
      if HasImage(rows[1..], p) {
        var j :| 0 <= j < |rows[1..]| && rows[1..][j].imagePath == p;
        assert rows[j + 1].imagePath == p;
      }
      if HasImage(rows, p) {
        var j :| 0 <= j < |rows| && rows[j].imagePath == p;
        if j > 0 {
          assert rows[1..][j - 1].imagePath == p;
        }
      }
    }
  }

  /** The paths of two runs of rows are the paths of the first followed by those of the second. */
  lemma {:induction false} ImagePathsAppend(a: seq<Row>, b: seq<Row>)
    ensures ImagePaths(a + b) == ImagePaths(a) + ImagePaths(b)
  {
    if a != [] {
      assert (a + b)[1..] == a[1..] + b;
      ImagePathsAppend(a[1..], b);
    } else {
      assert a + b == b;
    }
  }
}
