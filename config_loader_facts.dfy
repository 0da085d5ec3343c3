/**
 * Properties of the configuration reader of src/core/ConfigLoader.js: what each
 * kind of line does to the loop's state, how a row object is assembled from its
 * cells, and what the whole pass collects.
 */
module ConfigLoaderFacts {
  import opened Wrappers
  import opened JsText
  import opened ConfigLoader

  // ---------------------------------------------------------------------------
  // Lines

  /**
   * A line holding a section marker only switches the section: it is never read as
   * a table line, and the column keys survive the switch. Of several markers in
   * one line, the first in the fixed order levels, workers, events, global wins.
   */
  lemma MarkerLineSwitchesSection(p: Parser, line: string)
    requires SectionOf(line).Some?
    ensures var q := StepLine(p, line);
      q.section == SectionOf(line) && q.headers == p.headers && q.config == p.config
    ensures Includes(line, LevelsMarker) ==> StepLine(p, line).section == Some(Levels)
    ensures StepLine(p, line).section == Some(Global) <==>
      Includes(line, GlobalMarker) && !Includes(line, LevelsMarker)
      && !Includes(line, WorkersMarker) && !Includes(line, EventsMarker)
  {
  }

  /** Lines before any section, lines that are not table lines, and separator rows change nothing. */
  lemma IgnoredLine(p: Parser, line: string)
    requires SectionOf(line).None?
    requires p.section.None? || !StartsWith(line, "|") || Includes(line, "---")
    ensures StepLine(p, line) == p
  {
  }

  /** A table line holding both parentheses replaces the column keys and nothing else. */
  lemma HeaderLineSetsHeaders(p: Parser, line: string)
    requires SectionOf(line).None? && p.section.Some?
    requires StartsWith(line, "|") && !Includes(line, "---")
    requires Includes(line, "(") && Includes(line, ")")
    ensures StepLine(p, line) == p.(headers := HeaderNames(Cells(line)))
  {
  }

  /** A data line read before any column keys is dropped. */
  lemma RowBeforeHeadersDropped(p: Parser, line: string)
    requires SectionOf(line).None? && p.headers == []
    requires !(Includes(line, "(") && Includes(line, ")"))
    ensures StepLine(p, line) == p
  {
  }

  /** A data line after the column keys becomes one row of the current section. */
  lemma DataLineAddsRow(p: Parser, line: string)
    requires SectionOf(line).None? && p.section.Some? && p.headers != []
    requires StartsWith(line, "|") && !Includes(line, "---")
    requires !(Includes(line, "(") && Includes(line, ")"))
    ensures StepLine(p, line) == p.(config := AddRow(p.config, p.section.value, RowData(p.headers, Cells(line))))
  {
  }

  // ---------------------------------------------------------------------------
  // Cells and headers

  /** Trimming never introduces a character. */
  lemma TrimKeepsAbsent(s: string, c: char)
    requires c !in s
    ensures c !in Trim(s)
  {
    TrimSpec(s);
    var r := Trim(s);
    var i :| TrimmedAt(s, r, i);
    forall k | 0 <= k < |r|
      ensures r[k] != c
    {
      assert r[k] == s[i + k];
    }
  }

  /**
   * Every cell is non-empty, already trimmed, and holds no '|'. The cells are
   * exactly the non-empty trimmed pieces, each as often as it occurs among them.
   */
  lemma CellsAreTrimmedPieces(line: string)
    ensures forall k :: 0 <= k < |Cells(line)| ==>
      Cells(line)[k] != "" && '|' !in Cells(line)[k] && Trim(Cells(line)[k]) == Cells(line)[k]
    ensures forall c :: c in Cells(line) <==>
      c != "" && exists j :: 0 <= j < |Split(line, '|')| && Trim(Split(line, '|')[j]) == c
    ensures multiset(Cells(line)) == multiset(TrimAll(Split(line, '|')))["" := 0]
  {
    var pieces := Split(line, '|');
    var trimmed := TrimAll(pieces);
    var cells := Cells(line);
    forall k | 0 <= k < |cells|
      ensures cells[k] != "" && '|' !in cells[k] && Trim(cells[k]) == cells[k]
    {
      assert cells[k] in trimmed;
      var j :| 0 <= j < |trimmed| && trimmed[j] == cells[k];
      TrimKeepsAbsent(pieces[j], '|');
      TrimIdempotent(pieces[j]);
    }
  }

  /**
   * A header is the group of the leftmost match of the regular expression inside
   * its cell, and the whole cell when it matches nowhere, in particular when the
   * cell has no '('.
   */
  lemma HeaderNameSpec(cell: string)
    ensures (exists i :: MatchAt(cell, i)) ==>
      exists i :: FirstMatchFrom(cell, 0, i) && GroupAt(cell, HeaderName(cell), i)
    ensures (forall i :: 0 <= i < |cell| ==> !MatchAt(cell, i)) ==> HeaderName(cell) == cell
    ensures '(' !in cell ==> HeaderName(cell) == cell
  {
    ParenGroupSpec(cell);
    if ParenGroup(cell).Some? {
      assert HeaderName(cell) == ParenGroup(cell).value;
    }
    if '(' !in cell {
      NoOpenNoGroup(cell, 0);
    }
  }

  /** "ID (id)" gives the key "id". */
  lemma HeaderNameExample()
    ensures HeaderName("ID (id)") == "id"
  {
    var s := "ID (id)";
    assert CloseFrom(s, 4) == Some(6);
    assert s[4..6] == "id";
    assert ParenGroupFrom(s, 3) == Some("id");
  }

  // ---------------------------------------------------------------------------
  // Row objects

  /** Cell i, among the first n, lands under key k. */
  predicate KeyAt(headers: seq<string>, n: int, i: int, k: string)
  {
    0 <= i < n && Keeps(headers, i) && headers[i] == k
  }

  /** Cell i is the last of the first n cells landing under its key. */
  predicate LastAt(headers: seq<string>, n: int, i: int)
  {
    && KeyAt(headers, n, i, if 0 <= i < |headers| then headers[i] else "")
    && forall j :: i < j < n && Keeps(headers, j) ==> headers[j] != headers[i]
  }

  /**
   * The row object has a key exactly for the truthy headers of the cells present:
   * cells past the header count are dropped.
   */
  lemma {:induction false} RowDataPrefixKeys(headers: seq<string>, parts: seq<string>, n: nat)
    requires n <= |parts|
    ensures forall k :: k in RowDataPrefix(headers, parts, n) <==> exists i :: KeyAt(headers, n, i, k)
    decreases n
  {
    if n > 0 {
      var m := n - 1;
      RowDataPrefixKeys(headers, parts, m);
      var prev := RowDataPrefix(headers, parts, m);
      var row := RowDataPrefix(headers, parts, n);
      assert row == if Keeps(headers, m) then prev[headers[m] := Coerce(parts[m])] else prev;
      forall k
        ensures k in row <==> exists i :: KeyAt(headers, n, i, k)
      {
        if k in prev {
          var i :| KeyAt(headers, m, i, k);
          assert KeyAt(headers, n, i, k);
        } else if Keeps(headers, m) && headers[m] == k {
          assert KeyAt(headers, n, m, k);
        } else {
          assert k !in row;
          forall i | KeyAt(headers, n, i, k)
            ensures false
          {
            if i < m {
              assert KeyAt(headers, m, i, k);
            }
          }
        }
      }
    }
  }

  /** Each key holds the coerced value of the last cell stored under it. */
  lemma {:induction false} RowDataPrefixValues(headers: seq<string>, parts: seq<string>, n: nat)
    requires n <= |parts|
    ensures forall i :: LastAt(headers, n, i) ==>
      headers[i] in RowDataPrefix(headers, parts, n) && RowDataPrefix(headers, parts, n)[headers[i]] == Coerce(parts[i])
    decreases n
  {
    if n > 0 {
      var m := n - 1;
      RowDataPrefixValues(headers, parts, m);
      forall i | LastAt(headers, n, i) && i < m
        ensures LastAt(headers, m, i)
      {
      }
    }
  }

  lemma RowDataSpec(headers: seq<string>, parts: seq<string>)
    ensures forall k :: k in RowData(headers, parts) <==> exists i :: KeyAt(headers, |parts|, i, k)
    ensures forall i :: LastAt(headers, |parts|, i) ==>
      headers[i] in RowData(headers, parts) && RowData(headers, parts)[headers[i]] == Coerce(parts[i])
    ensures forall k :: k in RowData(headers, parts) ==> k != "" && k in headers
  {
    RowDataPrefixKeys(headers, parts, |parts|);
    RowDataPrefixValues(headers, parts, |parts|);
    forall k | k in RowData(headers, parts)
      ensures k != "" && k in headers
    {
      var i :| KeyAt(headers, |parts|, i, k);
    }
  }

  // ---------------------------------------------------------------------------
  // Collecting rows

  /** The rows collected for a list section. */
  function Rows(c: Config, s: Section): seq<Row>
  {
    match s
    case Levels => c.levels
    case Workers => c.workers
    case Events => c.events
    case Global => []
  }

  /**
   * A row read in a list section is appended to that section's list only; a row read
   * in the global section sets global[key] = value when key is truthy and value is
   * present, and otherwise changes nothing.
   */
  lemma AddRowEffect(c: Config, s: Section, row: Row)
    ensures forall t :: Rows(AddRow(c, s, row), t) == Rows(c, t) + (if t == s && s != Global then [row] else [])
    ensures s != Global ==> AddRow(c, s, row).global == c.global
    ensures s == Global && "key" in row && Truthy(row["key"]) && "value" in row ==>
      AddRow(c, s, row).global == c.global[row["key"] := row["value"]]
    ensures s == Global && !("key" in row && Truthy(row["key"]) && "value" in row) ==> AddRow(c, s, row) == c
  {
  }

  /** Of two global rows with the same key, the later one's value stays. */
  lemma LaterGlobalRowWins(c: Config, first: Row, second: Row)
    requires "key" in first && "key" in second && first["key"] == second["key"]
    requires Truthy(second["key"]) && "value" in second
    ensures AddRow(AddRow(c, Global, first), Global, second).global[second["key"]] == second["value"]
  {
  }

  /** One line appends at most one row and removes no global key. */
  lemma StepLineGrows(p: Parser, line: string)
    ensures forall t :: Rows(p.config, t) <= Rows(StepLine(p, line).config, t)
    ensures p.config.global.Keys <= StepLine(p, line).config.global.Keys
  {
    if SectionOf(line).None? && p.section.Some? && StartsWith(line, "|") && !Includes(line, "---")
      && !(Includes(line, "(") && Includes(line, ")")) && p.headers != [] {
      DataLineAddsRow(p, line);
      AddRowEffect(p.config, p.section.value, RowData(p.headers, Cells(line)));
    } else if SectionOf(line).Some? {
      MarkerLineSwitchesSection(p, line);
    } else if p.section.None? || !StartsWith(line, "|") || Includes(line, "---") {
      IgnoredLine(p, line);
    } else if Includes(line, "(") && Includes(line, ")") {
      HeaderLineSetsHeaders(p, line);
    } else {
      RowBeforeHeadersDropped(p, line);
    }
  }

  /** b continues a: every list of a is a prefix of b's, and no global key of a is gone from b. */
  predicate Extends(a: Config, b: Config)
  {
    a.levels <= b.levels && a.workers <= b.workers && a.events <= b.events && a.global.Keys <= b.global.Keys
  }

  lemma ExtendsTransitive(a: Config, b: Config, c: Config)
    requires Extends(a, b) && Extends(b, c)
    ensures Extends(a, c)
  {
  }

  lemma ParsePrefixStepExtends(lines: seq<string>, m: nat)
    requires 0 < m <= |lines|
    ensures Extends(ParsePrefix(lines, m - 1).config, ParsePrefix(lines, m).config)
  {
    var p := ParsePrefix(lines, m - 1);
    var line := Trim(lines[m - 1]);
    var q := StepLine(p, line);
    StepLineGrows(p, line);
    assert Rows(p.config, Levels) <= Rows(q.config, Levels);
    assert Rows(p.config, Workers) <= Rows(q.config, Workers);
    assert Rows(p.config, Events) <= Rows(q.config, Events);
    assert Extends(p.config, q.config);
  }

  /**
   * Lists only grow, at their end, so rows stay in file order; and global keys, once
   * set, are never removed.
   */
  lemma {:induction false} ParsePrefixGrows(lines: seq<string>, n: nat, m: nat)
    requires n <= m <= |lines|
    ensures Extends(ParsePrefix(lines, n).config, ParsePrefix(lines, m).config)
    decreases m
  {
    if n < m {
      ParsePrefixGrows(lines, n, m - 1);
      ParsePrefixStepExtends(lines, m);
      ExtendsTransitive(ParsePrefix(lines, n).config, ParsePrefix(lines, m - 1).config, ParsePrefix(lines, m).config);
    }
  }

  /** The line, once trimmed, announces no section. */
  predicate Unmarked(raw: string)
  {
    SectionOf(Trim(raw)).None?
  }

  /** Nothing is collected before the first section marker. */
  lemma {:induction false} NothingBeforeFirstSection(lines: seq<string>, n: nat)
    requires n <= |lines|
    requires forall j :: 0 <= j < n ==> Unmarked(lines[j])
    ensures ParsePrefix(lines, n) == Start
    decreases n
  {
    if n == 0 {
      assert ParsePrefix(lines, 0) == Start;
    } else {
      NothingBeforeFirstSection(lines, n - 1);
      assert Unmarked(lines[n - 1]);
      IgnoredLine(Start, Trim(lines[n - 1]));
    }
  }

  /** An empty document yields the empty configuration. */
  lemma EmptyDocument()
    ensures ParseText("") == EmptyConfig
  {
    assert Split("", '\n') == [""];
    assert Trim("") == "";
    assert !Includes("", LevelsMarker) && !Includes("", WorkersMarker);
    assert !Includes("", EventsMarker) && !Includes("", GlobalMarker);
  }

  // ---------------------------------------------------------------------------
  // Cell values

  lemma CoerceExamples()
    ensures Coerce("12") == Num(12.0)
    ensures Coerce("12px") == Str("12px")
  {
    IntegerLiteral();
    UnitSuffixIsText();
    assert !NonDecimalInteger("12px");
  }

  /** A hexadecimal cell is finite for Number() but parseFloat reads 0 from it. */
  lemma CoerceHex()
    ensures Coerce("0x1F") == Num(0.0)
  {
    assert IndexOf("0x1F", 'e') == None && IndexOf("0x1F", 'E') == None && IndexOf("0x1F", '.') == None;
    assert !IsDigit("0x1F"[1]);
    HexLiteral();
  }

  /** Infinity stays text: parseFloat reads it, but it is not finite. */
  lemma CoerceInfinity()
    ensures Coerce("Infinity") == Str("Infinity")
  {
    InfinityIsText();
  }
}
