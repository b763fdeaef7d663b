/** The row filter at the head of the ingestion loop (src/App.jsx, the `complete`
    callback of the CSV parse): each sheet row is trimmed and its value parsed, and a
    row missing any of the four fields is dropped without a trace. */
module Rows {
  import opened Wrappers

  /** One row of the published sheet as the CSV parser hands it over: a column that is
      missing from the row is `undefined`, here `None`. */
  datatype RawRow = RawRow(
    encuestadora: Option<string>,
    periodo: Option<string>,
    candidato: Option<string>,
    valor: Option<string>)

  /** A row that passed the filter: pollster, period label, candidate and value. */
  datatype Row = Row(pollster: string, period: string, candidate: string, value: real)

  /** The characters `String.prototype.trim` removes: ECMAScript's WhiteSpace
      (tab, vertical tab, form feed, space, no-break space, the byte order mark and
      the other space separators of category Zs) and LineTerminator (line feed,
      carriage return, line and paragraph separators). */
  predicate IsWhitespace(c: char) {
    || c == '\t' || c == '\n' || c == '\U{000B}' || c == '\U{000C}' || c == '\r'
    || c == ' ' || c == '\U{00A0}' || c == '\U{1680}'
    || ('\U{2000}' <= c <= '\U{200A}')
    || c == '\U{2028}' || c == '\U{2029}' || c == '\U{202F}' || c == '\U{205F}'
    || c == '\U{3000}' || c == '\U{FEFF}'
  }

  predicate AllWhitespace(s: string) {
    forall i :: 0 <= i < |s| ==> IsWhitespace(s[i])
  }

  /** `s` without its leading whitespace. */
  function TrimStart(s: string): string {
    if s != [] && IsWhitespace(s[0]) then TrimStart(s[1..]) else s
  }

  /** `s` without its trailing whitespace. */
  function TrimEnd(s: string): string {
    if s != [] && IsWhitespace(s[|s| - 1]) then TrimEnd(s[..|s| - 1]) else s
  }

  /** `String.prototype.trim`. */
  function Trim(s: string): string {
    TrimEnd(TrimStart(s))
  }

  lemma {:induction false} TrimStartDrops(s: string) returns (i: nat)
    ensures i <= |s| && TrimStart(s) == s[i..]
    ensures AllWhitespace(s[..i]) && (i < |s| ==> !IsWhitespace(s[i]))
  {
    if s != [] && IsWhitespace(s[0]) {
      var k := TrimStartDrops(s[1..]);
      i := k + 1;
      assert s[1..][k..] == s[i..];
      assert forall m :: 1 <= m < i ==> s[..i][m] == s[1..][..k][m - 1];
    } else {
      i := 0;
    }
  }

  lemma {:induction false} TrimEndDrops(s: string) returns (j: nat)
    ensures j <= |s| && TrimEnd(s) == s[..j]
    ensures AllWhitespace(s[j..]) && (0 < j ==> !IsWhitespace(s[j - 1]))
  {
    if s != [] && IsWhitespace(s[|s| - 1]) {
      j := TrimEndDrops(s[..|s| - 1]);
      assert s[..|s| - 1][..j] == s[..j];
      assert forall m :: 0 <= m < |s| - 1 - j ==> s[j..][m] == s[..|s| - 1][j..][m];
    } else {
      j := |s|;
    }
  }

  /** `trim` removes exactly the leading and the trailing whitespace: its result is a
      slice of `s` with only whitespace around it, it neither starts nor ends with
      whitespace, and it is empty exactly when `s` is all whitespace. */
  lemma TrimSpec(s: string)
    ensures exists i, j :: 0 <= i <= j <= |s| && Trim(s) == s[i..j]
                           && AllWhitespace(s[..i]) && AllWhitespace(s[j..])
    ensures Trim(s) != [] ==> !IsWhitespace(Trim(s)[0]) && !IsWhitespace(Trim(s)[|Trim(s)| - 1])
    ensures Trim(s) == [] <==> AllWhitespace(s)
  {
    var i := TrimStartDrops(s);
    var t := s[i..];
    var k := TrimEndDrops(t);
    assert Trim(s) == s[i..i + k];
    assert s[i + k..] == t[k..];
    if Trim(s) == [] {
      assert t[0..] == t;
      assert i == |s|;
      assert s[..i] == s;
    } else {
      assert i < |s| && !IsWhitespace(s[i]);
    }
  }

  /** `!x` on the result of `row.Field?.trim()`: the field is missing or blank. */
  predicate Blank(field: Option<string>) {
    field.None? || Trim(field.value) == []
  }

  /** The filter of one row. `parseFloat` is the JavaScript number parser, given as a
      parameter: `None` stands for NaN. A missing `Valor` column reads as `undefined`,
      which parses to NaN. The row is kept exactly when none of the three text fields
      is blank and the value is a number, and then it carries the trimmed texts. */
  function Normalize(raw: RawRow, parseFloat: string -> Option<real>): (r: Option<Row>)
    ensures r.None? <==>
      || Blank(raw.encuestadora) || Blank(raw.periodo) || Blank(raw.candidato)
      || raw.valor.None? || parseFloat(raw.valor.value).None?
    ensures r.Some? ==>
      && r.value.pollster == Trim(raw.encuestadora.value) != []
      && r.value.period == Trim(raw.periodo.value) != []
      && r.value.candidate == Trim(raw.candidato.value) != []
      && Some(r.value.value) == parseFloat(raw.valor.value)
  {
    var value := if raw.valor.None? then None else parseFloat(raw.valor.value);
    if Blank(raw.encuestadora) || Blank(raw.periodo) || Blank(raw.candidato) || value.None? then None
    else Some(Row(Trim(raw.encuestadora.value), Trim(raw.periodo.value), Trim(raw.candidato.value), value.value))
  }
}
