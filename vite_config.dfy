/**
 * The build-time plugin of vite.config.js: `transform(code, id)` ignores every
 * module whose normalised id does not contain docs/gameconfig.md, and turns that
 * document into a module whose default export is the parsed configuration. The
 * plugin carries its own copy of the table parser; here that copy is proved to
 * compute what ConfigLoader's parseConfig computes.
 */
module ViteConfig {
  import opened Wrappers
  import opened JsText
  import opened ConfigLoader

  const ConfigPath: string := "docs/gameconfig.md"

  /** id.replace(/\\/g, '/').toLowerCase(). */
  function NormalizeId(id: string): (r: string)
    ensures |r| == |id|
    ensures forall i :: 0 <= i < |id| ==> r[i] == LowerChar(if id[i] == '\\' then '/' else id[i])
  {
    ToLower(ForwardSlashes(id))
  }

  predicate Matches(id: string)
  {
    Includes(NormalizeId(id), ConfigPath)
  }

  /** The emitted module `export default <config>;`, with the config as a value. */
  datatype Module = ExportDefault(config: Config)

  /** transform: None stands for the undefined it returns for every other module. */
  method Transform(code: string, id: string) returns (out: Option<Module>)
    ensures out == if Matches(id) then Some(ExportDefault(ParseText(code))) else None
  {
    var normalizedId := NormalizeId(id);
    if !Includes(normalizedId, ConfigPath) {
      return None;
    }
    var config := TransformTable(code);
    return Some(ExportDefault(config));
  }

  /** The plugin's copy of the line loop. */
  method TransformTable(code: string) returns (config: Config)
    ensures config == ParseText(code)
  {
    var lines := Split(code, '\n');
    config := EmptyConfig;
    var currentSection: Option<Section> := None;
    var headers: seq<string> := [];
    for i := 0 to |lines|
      invariant Parser(currentSection, headers, config) == ParsePrefix(lines, i)
    {
      var line := Trim(lines[i]);
      currentSection, headers, config := TransformLine(currentSection, headers, config, line);
    }
  }

  /** The plugin's copy of the line loop's body after the trim; each early return is one of its `continue`s. */
  method TransformLine(section: Option<Section>, headers: seq<string>, config: Config, line: string)
    returns (section': Option<Section>, headers': seq<string>, config': Config)
    ensures Parser(section', headers', config') == StepLine(Parser(section, headers, config), line)
  {
    section', headers', config' := section, headers, config;
    if Includes(line, LevelsMarker) {
      section' := Some(Levels);
      return;
    } else if Includes(line, WorkersMarker) {
      section' := Some(Workers);
      return;
    } else if Includes(line, EventsMarker) {
      section' := Some(Events);
      return;
    } else if Includes(line, GlobalMarker) {
      section' := Some(Global);
      return;
    }
    if section.Some? && StartsWith(line, "|") {
      if Includes(line, "---") {
        return;
      }
      var parts := Cells(line);
      if Includes(line, "(") && Includes(line, ")") {
        headers' := HeaderNames(parts);
        return;
      }
      if |headers| > 0 {
        var rowData := TransformRow(headers, parts);
        match section.value
        case Global =>
          if "key" in rowData && Truthy(rowData["key"]) && "value" in rowData {
            config' := config.(global := config.global[rowData["key"] := rowData["value"]]);
          }
        case Levels => config' := config.(levels := config.levels + [rowData]);
        case Workers => config' := config.(workers := config.workers + [rowData]);
        case Events => config' := config.(events := config.events + [rowData]);
      }
    }
  }

  /** The plugin's copy of the parts.forEach that builds a row object. */
  method TransformRow(headers: seq<string>, parts: seq<string>) returns (rowData: Row)
    ensures rowData == RowData(headers, parts)
  {
    rowData := map[];
    for index := 0 to |parts|
      invariant rowData == RowDataPrefix(headers, parts, index)
    {
      if index < |headers| && headers[index] != "" {
        rowData := rowData[headers[index] := Coerce(parts[index])];
      }
    }
  }

  // ---------------------------------------------------------------------------
  // Properties

  /** Normalising twice changes nothing more, so a normalised id matches exactly when the original does. */
  lemma NormalizeIdempotent(id: string)
    ensures NormalizeId(NormalizeId(id)) == NormalizeId(id)
    ensures Matches(NormalizeId(id)) <==> Matches(id)
  {
    var n := NormalizeId(id);
    forall i | 0 <= i < |id|
      ensures NormalizeId(n)[i] == n[i]
    {
      assert n[i] != '\\';
    }
  }

  /** Ids that differ only in letter case or in the separator style match alike. */
  lemma MatchIgnoresCaseAndSeparators(a: string, b: string)
    requires |a| == |b|
    requires forall i :: 0 <= i < |a| ==>
      LowerChar(if a[i] == '\\' then '/' else a[i]) == LowerChar(if b[i] == '\\' then '/' else b[i])
    ensures Matches(a) <==> Matches(b)
  {
    assert NormalizeId(a) == NormalizeId(b);
  }

  lemma NormalizeConcat(a: string, b: string)
    ensures NormalizeId(a + b) == NormalizeId(a) + NormalizeId(b)
  {
    var l, r := NormalizeId(a + b), NormalizeId(a) + NormalizeId(b);
    forall i | 0 <= i < |a + b|
      ensures l[i] == r[i]
    {
      if i < |a| {
        assert (a + b)[i] == a[i];
      } else {
        assert (a + b)[i] == b[i - |a|];
      }
    }
  }

  /** The filter is a substring test, so an id with a query suffix such as ?import still matches. */
  lemma QuerySuffixStillMatches(id: string, query: string)
    requires Matches(id)
    ensures Matches(id + query)
  {
    NormalizeConcat(id, query);
    IncludesExtend(NormalizeId(id), ConfigPath, NormalizeId(query));
  }

  /** A matching id is exactly one whose normalised form holds docs/gameconfig.md somewhere. */
  lemma MatchesIff(id: string)
    ensures Matches(id) <==> exists i :: OccursAt(NormalizeId(id), ConfigPath, i)
  {
    IncludesIff(NormalizeId(id), ConfigPath);
  }

  /** A Windows-style, capitalised id is accepted. */
  lemma WindowsPathMatches()
    ensures Matches("\\Docs\\GameConfig.md")
  {
    var id := "\\Docs\\GameConfig.md";
    var n := NormalizeId(id);
    assert n == "/docs/gameconfig.md";
    assert n[1..][..|ConfigPath|] == ConfigPath;
    assert Includes(n[1..], ConfigPath);
  }
}
