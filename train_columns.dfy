/** Parsing of the list-valued CSV columns (`genres`, `keywords`,
    `production_companies`, `production_countries`) in the training pipeline:
    `parse_json_column` and `extract_director_from_companies`. */
module TrainColumns {
  import opened Base
  import opened PyList
  import opened PyText

  /** The Python values `ast.literal_eval` can produce, as far as the parser
      looks at them: strings, lists, dicts keyed by strings, and everything
      else (numbers, tuples, `None`, ...). */
  datatype PyValue =
    | PStr(s: string)
    | PList(items: seq<PyValue>)
    | PDict(fields: map<string, PyValue>)
    | POther

  /** A CSV cell of a text column: NaN or a string. */
  datatype Cell = Missing | Text(text: string)

  /** `isinstance(item, dict) and key in item`. */
  predicate HasKey(item: PyValue, key: string)
  {
    item.PDict? && key in item.fields
  }

  /** `[item[key] for item in items if isinstance(item, dict) and key in item]`. */
  function KeyValues(items: seq<PyValue>, key: string): (r: seq<PyValue>)
    ensures |r| <= |items|
    decreases |items|
  {
    if |items| == 0 then []
    else
      var init := KeyValues(items[..|items| - 1], key);
      var last := items[|items| - 1];
      if HasKey(last, key) then init + [last.fields[key]] else init
  }

  /** Reference definition: keep the dicts that hold `key`, then read `key`
      from each of them, position by position. */
  lemma {:induction false} KeyValuesIsFilterThenRead(items: seq<PyValue>, key: string)
    ensures |KeyValues(items, key)| == |Filter(items, v => HasKey(v, key))|
    ensures forall k :: 0 <= k < |KeyValues(items, key)| ==>
              HasKey(Filter(items, v => HasKey(v, key))[k], key) &&
              KeyValues(items, key)[k] == Filter(items, v => HasKey(v, key))[k].fields[key]
    decreases |items|
  {
    if |items| > 0 {
      var p := (v: PyValue) => HasKey(v, key);
      var init := items[..|items| - 1];
      KeyValuesIsFilterThenRead(init, key);
      var f := Filter(items, p);
      var fi := Filter(init, p);
      assert f == fi + (if p(items[|items| - 1]) then [items[|items| - 1]] else []);
      forall k | 0 <= k < |f|
        ensures HasKey(f[k], key)
      {
        FilterSatisfies(items, p, k);
      }
    }
  }

  /** Records `[{key: v0}, {key: v1}, ...]` give back exactly `[v0, v1, ...]`. */
  lemma {:induction false} KeyValuesOfRecords(vals: seq<PyValue>, key: string)
    ensures KeyValues(seq(|vals|, i requires 0 <= i < |vals| => PDict(map[key := vals[i]])), key) == vals
    decreases |vals|
  {
    var recs := seq(|vals|, i requires 0 <= i < |vals| => PDict(map[key := vals[i]]));
    if |vals| > 0 {
      var n := |vals| - 1;
      var init := seq(n, i requires 0 <= i < n => PDict(map[key := vals[..n][i]]));
      assert recs[..n] == init;
      KeyValuesOfRecords(vals[..n], key);
      assert HasKey(recs[n], key);
      InitLast(vals);
    }
  }

  /** Items that are not dicts holding `key` are skipped wherever they occur. */
  lemma {:induction false} KeyValuesSkips(a: seq<PyValue>, item: PyValue, b: seq<PyValue>, key: string)
    requires !HasKey(item, key)
    ensures KeyValues(a + [item] + b, key) == KeyValues(a + b, key)
    decreases |b|
  {
    if |b| == 0 {
      assert a + [item] + b == a + [item];
      assert (a + [item])[..|a|] == a;
      assert a + b == a;
    } else {
      var n := |b| - 1;
      KeyValuesSkips(a, item, b[..n], key);
      assert (a + [item] + b)[..|a| + 1 + n] == a + [item] + b[..n];
      assert (a + b)[..|a| + n] == a + b[..n];
    }
  }

  /** `[item.strip() for item in parts if item.strip()]`. */
  function StrippedPieces(parts: seq<string>): (r: seq<string>)
    ensures |r| <= |parts|
    ensures forall k :: 0 <= k < |r| ==> |r[k]| > 0
    decreases |parts|
  {
    if |parts| == 0 then []
    else
      var t := Strip(parts[0]);
      var rest := StrippedPieces(parts[1..]);
      if |t| > 0 then [t] + rest else rest
  }

  /** Wraps Python strings as values. */
  function Strs(ts: seq<string>): (r: seq<PyValue>)
    ensures |r| == |ts|
    ensures forall k :: 0 <= k < |ts| ==> r[k] == PStr(ts[k])
  {
    seq(|ts|, k requires 0 <= k < |ts| => PStr(ts[k]))
  }

  /** `pd.isna(col_data) or col_data == '' or col_data == '[]'`. */
  predicate Blank(cell: Cell)
  {
    cell.Missing? || cell.text == "" || cell.text == "[]"
  }

  /** `parse_json_column(col_data, key)` on a CSV cell. `literalEval` stands
      for `ast.literal_eval`, `None` meaning that it raised. */
  function ParseJsonColumn(cell: Cell, key: string, literalEval: string -> Option<PyValue>): (r: seq<PyValue>)
    ensures Blank(cell) ==> r == []
    ensures !Blank(cell) && literalEval(cell.text).None?
      ==> r == Strs(StrippedPieces(SplitOn(cell.text, ',')))
    ensures !Blank(cell) && literalEval(cell.text).Some? && literalEval(cell.text).value.PList?
      ==> r == KeyValues(literalEval(cell.text).value.items, key)
    ensures !Blank(cell) && literalEval(cell.text).Some? && !literalEval(cell.text).value.PList?
      ==> r == []
  {
    match cell
    case Missing => []
    case Text(s) =>
      if s == "" || s == "[]" then []
      else
        match literalEval(s)
        case None => Strs(StrippedPieces(SplitOn(s, ',')))
        case Some(PList(items)) => KeyValues(items, key)
        case Some(_) => []
  }

  /** Stripping padded pieces gives the names back when none is blank. */
  lemma {:induction false} StrippedPiecesOfPadded(pieces: seq<string>, names: seq<string>)
    requires |pieces| == |names|
    requires forall k :: 0 <= k < |pieces| ==> Strip(pieces[k]) == names[k] && |names[k]| > 0
    ensures StrippedPieces(pieces) == names
    decreases |pieces|
  {
    if |pieces| > 0 {
      forall k | 0 <= k < |pieces| - 1
        ensures Strip(pieces[1..][k]) == names[1..][k] && |names[1..][k]| > 0
      {
        assert Strip(pieces[k + 1]) == names[k + 1];
      }
      StrippedPiecesOfPadded(pieces[1..], names[1..]);
      StrippedPiecesCons(pieces);
      ConsTail(names);
    }
  }

  /** One unfolding of `StrippedPieces`. */
  lemma StrippedPiecesCons(parts: seq<string>)
    requires |parts| > 0
    ensures StrippedPieces(parts) ==
              (if |Strip(parts[0])| > 0 then [Strip(parts[0])] else []) + StrippedPieces(parts[1..])
  {
  }

  /** The comma fallback inverts writing names separated by commas (with any
      padding around them): when `literal_eval` rejects the text, parsing
      returns the names in order. */
  lemma CommaListRoundTrip(pieces: seq<string>, names: seq<string>, key: string,
                           literalEval: string -> Option<PyValue>)
    requires |pieces| == |names| >= 1
    requires forall k :: 0 <= k < |pieces| ==> ',' !in pieces[k]
    requires forall k :: 0 <= k < |pieces| ==> Strip(pieces[k]) == names[k] && |names[k]| > 0
    requires Join(pieces, [',']) != "[]"
    requires literalEval(Join(pieces, [','])).None?
    ensures ParseJsonColumn(Text(Join(pieces, [','])), key, literalEval) == Strs(names)
  {
    assert |Strip(pieces[0])| <= |pieces[0]|;
    JoinNonEmpty(pieces, [',']);
    SplitOnJoin(pieces, ',');
    StrippedPiecesOfPadded(pieces, names);
  }

  lemma JoinNonEmpty(pieces: seq<string>, sep: string)
    requires |pieces| >= 1 && |pieces[0]| > 0
    ensures |Join(pieces, sep)| > 0
  {
  }

  /** `extract_director_from_companies`: the first parsed company, if any. */
  function ExtractDirector(companies: Cell, literalEval: string -> Option<PyValue>): (r: Option<PyValue>)
    ensures r.None? <==> |ParseJsonColumn(companies, "name", literalEval)| == 0
    ensures r.Some? ==> r.value == ParseJsonColumn(companies, "name", literalEval)[0]
  {
    var parsed := ParseJsonColumn(companies, "name", literalEval);
    if |parsed| > 0 then Some(parsed[0]) else None
  }
}
