/**
 * The markdown-table reader of src/core/ConfigLoader.js. parseConfig walks the
 * lines of the configuration document once: a line naming one of four numbered
 * sections switches the current section, a table line holding parentheses sets
 * the column keys, and every later table line becomes a row object keyed by those
 * columns. Rows of the levels, workers and events sections are collected in file
 * order; rows of the global section set one key/value pair each.
 */
module ConfigLoader {
  import opened Wrappers
  import opened JsText

  datatype Section = Levels | Workers | Events | Global

  /** A cell after coercion: a number when it reads as a finite number, otherwise its text. */
  datatype Value = Num(n: real) | Str(s: string)

  /** One row object: column key to cell value. */
  type Row = map<string, Value>

  datatype Config = Config(levels: seq<Row>, workers: seq<Row>, events: seq<Row>, global: map<Value, Value>)

  const EmptyConfig: Config := Config([], [], [], map[])

  /** The loop's state: currentSection (None for null), headers and the config built so far. */
  datatype Parser = Parser(section: Option<Section>, headers: seq<string>, config: Config)

  const Start: Parser := Parser(None, [], EmptyConfig)

  const LevelsMarker: string := "2. 关卡难度配置"
  const WorkersMarker: string := "3. 社工相关配置"
  const EventsMarker: string := "4. 老人事件相关配置"
  const GlobalMarker: string := "5. 全局游戏设置"

  /** The section a line announces. The markers are tested in a fixed order (levels, workers, events, global), wherever they sit in the line. */
  function SectionOf(line: string): Option<Section>
  {
    if Includes(line, LevelsMarker) then Some(Levels)
    else if Includes(line, WorkersMarker) then Some(Workers)
    else if Includes(line, EventsMarker) then Some(Events)
    else if Includes(line, GlobalMarker) then Some(Global)
    else None
  }

  // ---------------------------------------------------------------------------
  // Cells and headers

  function TrimAll(ps: seq<string>): (r: seq<string>)
    ensures |r| == |ps| && forall i :: 0 <= i < |ps| ==> r[i] == Trim(ps[i])
  {
    seq(|ps|, i requires 0 <= i < |ps| => Trim(ps[i]))
  }

  /** filter(s => s !== ''): the non-empty pieces, in order. */
  function NonEmpty(ps: seq<string>): (r: seq<string>)
    ensures |r| <= |ps|
    ensures forall i :: 0 <= i < |r| ==> r[i] != "" && r[i] in ps
    ensures forall s :: s in r <==> s in ps && s != ""
    ensures multiset(r) == multiset(ps)["" := 0]
    decreases |ps|
  {
    if ps == [] then []
    else
      assert ps == [ps[0]] + ps[1..];
      if ps[0] == "" then NonEmpty(ps[1..])
      else [ps[0]] + NonEmpty(ps[1..])
  }

  /** The filter works piece by piece: it distributes over concatenation and keeps a lone piece iff it is non-empty. */
  lemma {:induction false} NonEmptyConcat(a: seq<string>, b: seq<string>)
    ensures NonEmpty(a + b) == NonEmpty(a) + NonEmpty(b)
    ensures |b| == 1 ==> NonEmpty(b) == (if b[0] == "" then [] else b)
    decreases |a|
  {
    if a == [] {
      assert a + b == b;
    } else {
      var ab := a + b;
      assert ab[0] == a[0] && ab[1..] == a[1..] + b;
      NonEmptyConcat(a[1..], b);
      if a[0] == "" {
        assert NonEmpty(ab) == NonEmpty(a[1..] + b);
      } else {
        assert NonEmpty(ab) == [a[0]] + NonEmpty(a[1..] + b);
        assert NonEmpty(a) == [a[0]] + NonEmpty(a[1..]);
      }
    }
  }

  /** line.split('|').map(s => s.trim()).filter(s => s !== ''). */
  function Cells(line: string): seq<string>
  {
    NonEmpty(TrimAll(Split(line, '|')))
  }

  /** The text inside the cell's first parentheses, or the whole cell. */
  function HeaderName(cell: string): string
  {
    match ParenGroup(cell)
    case Some(g) => g
    case None => cell
  }

  function HeaderNames(parts: seq<string>): (r: seq<string>)
    ensures |r| == |parts| && forall i :: 0 <= i < |parts| ==> r[i] == HeaderName(parts[i])
  {
    seq(|parts|, i requires 0 <= i < |parts| => HeaderName(parts[i]))
  }

  // ---------------------------------------------------------------------------
  // Rows

  /**
   * A cell's value: parseFloat(part) when that is not NaN and Number(part) is finite,
   * otherwise the text. A 0x / 0o / 0b literal passes the finiteness test while
   * parseFloat reads only its leading zero.
   */
  function Coerce(part: string): Value
  {
    match FiniteDecimal(part)
    case Some(v) => Num(v)
    case None => if NonDecimalInteger(part) then Num(0.0) else Str(part)
  }

  /** JavaScript truthiness of a cell value. */
  predicate Truthy(v: Value)
  {
    match v
    case Num(n) => n != 0.0
    case Str(s) => s != ""
  }

  /** Column i is kept when headers[i] exists and is not empty. */
  predicate Keeps(headers: seq<string>, i: int)
  {
    0 <= i < |headers| && headers[i] != ""
  }

  /** The row object after the forEach has visited the first n cells. */
  function RowDataPrefix(headers: seq<string>, parts: seq<string>, n: nat): Row
    requires n <= |parts|
    decreases n
  {
    if n == 0 then map[]
    else
      var row := RowDataPrefix(headers, parts, n - 1);
      if Keeps(headers, n - 1) then row[headers[n - 1] := Coerce(parts[n - 1])] else row
  }

  function RowData(headers: seq<string>, parts: seq<string>): Row
  {
    RowDataPrefix(headers, parts, |parts|)
  }

  /** Files one row into the section it was read in. */
  function AddRow(c: Config, section: Section, row: Row): Config
  {
    match section
    case Levels => c.(levels := c.levels + [row])
    case Workers => c.(workers := c.workers + [row])
    case Events => c.(events := c.events + [row])
    case Global =>
      if "key" in row && Truthy(row["key"]) && "value" in row then c.(global := c.global[row["key"] := row["value"]])
      else c
  }

  // ---------------------------------------------------------------------------
  // The line loop

  /** One iteration of the loop, on the line after trim(). */
  function StepLine(p: Parser, line: string): Parser
  {
    match SectionOf(line)
    case Some(s) => p.(section := Some(s))
    case None =>
      if p.section.None? || !StartsWith(line, "|") || Includes(line, "---") then p
      else
        var parts := Cells(line);
        if Includes(line, "(") && Includes(line, ")") then p.(headers := HeaderNames(parts))
        else if |p.headers| == 0 then p
        else p.(config := AddRow(p.config, p.section.value, RowData(p.headers, parts)))
  }

  /** The state after the first n lines, each trimmed before it is read. */
  function ParsePrefix(lines: seq<string>, n: nat): Parser
    requires n <= |lines|
    decreases n
  {
    if n == 0 then Start else StepLine(ParsePrefix(lines, n - 1), Trim(lines[n - 1]))
  }

  /** What parseConfig returns for a document. */
  function ParseText(markdown: string): Config
  {
    var lines := Split(markdown, '\n');
    ParsePrefix(lines, |lines|).config
  }

  /** parseConfig: one pass over the lines, each handled by ParseLine. */
  method ParseConfig(markdown: string) returns (config: Config)
    ensures config == ParseText(markdown)
  {
    var lines := Split(markdown, '\n');
    config := EmptyConfig;
    var currentSection: Option<Section> := None;
    var headers: seq<string> := [];
    for i := 0 to |lines|
      invariant Parser(currentSection, headers, config) == ParsePrefix(lines, i)
    {
      var line := Trim(lines[i]);
      currentSection, headers, config := ParseLine(currentSection, headers, config, line);
    }
  }

  /** The body of the line loop after the trim; each early return is one of its `continue`s. */
  method ParseLine(section: Option<Section>, headers: seq<string>, config: Config, line: string)
    returns (section': Option<Section>, headers': seq<string>, config': Config)
    ensures Parser(section', headers', config') == StepLine(Parser(section, headers, config), line)
  {
    section', headers', config' := section, headers, config;
    if Includes(line, LevelsMarker) {
      section' := Some(Levels);
      return;
    } else if Includes(line, WorkersMarker) {
      section' := Some(Workers);
      return;
    } else if Includes(line, EventsMarker) {
      section' := Some(Events);
      return;
    } else if Includes(line, GlobalMarker) {
      section' := Some(Global);
      return;
    }
    if section.Some? && StartsWith(line, "|") {
      if Includes(line, "---") {
        return;
      }
      var parts := Cells(line);
      if Includes(line, "(") && Includes(line, ")") {
        headers' := HeaderNames(parts);
        return;
      }
      if |headers| > 0 {
        var rowData := RowOf(headers, parts);
        match section.value
        case Global =>
          if "key" in rowData && Truthy(rowData["key"]) && "value" in rowData {
            config' := config.(global := config.global[rowData["key"] := rowData["value"]]);
          }
        case Levels => config' := config.(levels := config.levels + [rowData]);
        case Workers => config' := config.(workers := config.workers + [rowData]);
        case Events => config' := config.(events := config.events + [rowData]);
      }
    }
  }

  /** parts.forEach: cell i is stored under headers[i] when that header is truthy. */
  method RowOf(headers: seq<string>, parts: seq<string>) returns (rowData: Row)
    ensures rowData == RowData(headers, parts)
  {
    rowData := map[];
    for index := 0 to |parts|
      invariant rowData == RowDataPrefix(headers, parts, index)
    {
      if index < |headers| && headers[index] != "" {
        rowData := rowData[headers[index] := Coerce(parts[index])];
      }
    }
  }
}
