/**
 * The SQL fragments of a grouped, paginated grid fetch. One predicate decides all of
 * them: a request is "doing grouping" while some grouping column has no chosen value
 * yet, and the next such column is the one every grouped fragment names.
 */
module QueryBuilders {
  import opened Common
  import opened Text
  import opened Params

  /** `is_doing_grouping`: some grouping level is still undrilled. */
  predicate IsDoingGrouping(p: FetchParams) {
    |p.rowGroupCols| > |p.groupKeys|
  }

  /** The next undrilled grouping column, `row_group_cols[len(group_keys)]`. */
  function GroupColumn(p: FetchParams): string
    requires IsDoingGrouping(p)
  {
    p.rowGroupCols[|p.groupKeys|]
  }

  /** The select list of a grouped fetch, before the grouping column (no space after the comma). */
  const RowKeySelect: string := "SELECT cast(uuid() as varchar) as rcd___id,"

  // ---------------------------------------------------------------- SELECT

  /** `build_select_sql`. */
  function BuildSelect(p: FetchParams): (r: string)
    ensures IsDoingGrouping(p) ==> r == RowKeySelect + GroupColumn(p)
    ensures !IsDoingGrouping(p) ==> r == "SELECT *"
  {
    if IsDoingGrouping(p) then
      var colsToSelect := [GroupColumn(p)];
      RowKeySelect + Join(", ", colsToSelect)
    else
      "SELECT *"
  }

  // ---------------------------------------------------------------- WHERE

  /** The equality one drill-down level contributes: `"<col>" = '<key>'`. */
  function Condition(col: string, key: string): string {
    "\"" + col + "\" = '" + key + "'"
  }

  /** One condition per chosen key, pairing it with the grouping column at the same level. */
  function Conditions(cols: seq<string>, keys: seq<string>): (r: seq<string>)
    requires |keys| <= |cols|
    ensures |r| == |keys|
    ensures forall i :: 0 <= i < |keys| ==> r[i] == Condition(cols[i], keys[i])
  {
    if keys == [] then [] else [Condition(cols[0], keys[0])] + Conditions(cols[1..], keys[1..])
  }

  /** What `build_where_sql` needs to avoid an index error: every key has a grouping column. */
  predicate WhereDefined(p: FetchParams) {
    p.rowGroupCols == [] || |p.groupKeys| <= |p.rowGroupCols|
  }

  /** `build_where_sql`: the drill-down path so far as a conjunction, or nothing. */
  function BuildWhere(p: FetchParams): (r: string)
    requires WhereDefined(p)
    ensures r == "" <==> (p.groupKeys == [] || p.rowGroupCols == [])
    ensures r != "" ==> |r| > 7 && r[..7] == " WHERE "
  {
    if p.groupKeys == [] || p.rowGroupCols == [] then ""
    else
      var whereParts := Conditions(p.rowGroupCols, p.groupKeys);
      if whereParts != [] then " WHERE " + Join(" AND ", whereParts) else ""
  }

  /** The first drill-down level yields a single condition on the first grouping column. */
  lemma WhereFirstLevel(p: FetchParams)
    requires |p.groupKeys| == 1 && |p.rowGroupCols| >= 1
    ensures BuildWhere(p) == " WHERE \"" + p.rowGroupCols[0] + "\" = '" + p.groupKeys[0] + "'"
  {
    assert Conditions(p.rowGroupCols, p.groupKeys) == [Condition(p.rowGroupCols[0], p.groupKeys[0])];
  }

  /**
   * Drilling one level deeper (choosing value `key` for the current grouping column)
   * keeps the earlier conditions and appends exactly one for that column.
   */
  lemma WhereDrillDown(p: FetchParams, key: string)
    requires p.groupKeys != [] && IsDoingGrouping(p)
    ensures WhereDefined(p.(groupKeys := p.groupKeys + [key]))
    ensures BuildWhere(p.(groupKeys := p.groupKeys + [key]))
              == BuildWhere(p) + " AND " + Condition(GroupColumn(p), key)
  {
    var cols, keys := p.rowGroupCols, p.groupKeys;
    var q := p.(groupKeys := keys + [key]);
    var before := Conditions(cols, keys);
    var after := Conditions(cols, keys + [key]);
    var last := Condition(cols[|keys|], key);
    assert |after| == |before| + 1;
    assert forall i :: 0 <= i < |before| ==> after[i] == before[i];
    assert after[|before|] == last;
    assert after == before + [last];
    JoinSnoc(" AND ", before, last);
    assert BuildWhere(q) == " WHERE " + Join(" AND ", after);
    assert BuildWhere(p) == " WHERE " + Join(" AND ", before);
  }

  /** The request of the grid's own scenario: country chosen as US, drilling into city. */
  lemma WhereScenario()
    ensures BuildWhere(FetchParams(0, 100, None, None, ["country", "city"], ["US"]))
              == " WHERE \"country\" = 'US'"
  {
    WhereFirstLevel(FetchParams(0, 100, None, None, ["country", "city"], ["US"]));
  }

  // ---------------------------------------------------------------- GROUP BY

  /** `build_group_sql`. */
  function BuildGroup(p: FetchParams): (r: string)
    ensures r == "" <==> !IsDoingGrouping(p)
    ensures IsDoingGrouping(p) ==> r == "GROUP BY \"" + GroupColumn(p) + "\""
  {
    if !IsDoingGrouping(p) then ""
    else
      var rowGroupCol := GroupColumn(p);
      "GROUP BY \"" + rowGroupCol + "\""
  }

  // ---------------------------------------------------------------- ORDER BY

  /** `[part.strip() for part in sort.split(",")]`. */
  function SortTerms(sort: string): (r: seq<string>)
    ensures |r| == |Split(sort, ',')| >= 1
  {
    var parts := Split(sort, ',');
    seq(|parts|, i requires 0 <= i < |parts| => Strip(parts[i]))
  }

  /**
   * Term `i` is comma-separated piece `i` with the surrounding whitespace, and only that,
   * removed: the slice of the piece that starts after its leading whitespace, with blank
   * text on either side, and neither end of it a whitespace character.
   */
  lemma SortTermStripped(sort: string, i: int)
    requires 0 <= i < |SortTerms(sort)|
    ensures var piece := Split(sort, ',')[i];
            var term := SortTerms(sort)[i];
            && BlankAround(piece, term, |piece| - |TrimLeft(piece)|)
            && (term == [] || (!IsSpace(term[0]) && !IsSpace(term[|term| - 1])))
  {
    var piece := Split(sort, ',')[i];
    var t := TrimLeft(piece);
    assert SortTerms(sort)[i] == Strip(piece) == TrimRight(t);
    PrefixOfSuffix(piece, t, TrimRight(t));
  }

  /** True when every term has a first word, so that `part.split()[0]` succeeds on each. */
  predicate AllNamed(terms: seq<string>) {
    forall i :: 0 <= i < |terms| ==> !IsBlank(terms[i])
  }

  /** The terms whose leading column is a grouping column, in their original order. */
  function GroupingTerms(terms: seq<string>, cols: seq<string>): (r: seq<string>)
    requires AllNamed(terms)
    ensures |r| <= |terms|
  {
    if terms == [] then []
    else
      var rest := GroupingTerms(terms[1..], cols);
      if FirstWord(terms[0]) in cols then [terms[0]] + rest else rest
  }

  /**
   * The filter keeps exactly the terms that sort by a grouping column: each kept term
   * is one of the caller's and qualifies, and each of the caller's that qualifies is kept.
   */
  lemma {:induction false} GroupingTermsExact(terms: seq<string>, cols: seq<string>)
    requires AllNamed(terms)
    ensures forall t :: t in GroupingTerms(terms, cols) ==> t in terms && Qualifies(t, cols)
    ensures forall i :: 0 <= i < |terms| && FirstWord(terms[i]) in cols ==> terms[i] in GroupingTerms(terms, cols)
  {
    if terms != [] {
      GroupingTermsExact(terms[1..], cols);
      forall i | 1 <= i < |terms| ensures terms[i] == terms[1..][i - 1] { }
    }
  }

  /** A sort term whose first word is one of the grouping columns. */
  predicate Qualifies(t: string, cols: seq<string>) {
    !IsBlank(t) && FirstWord(t) in cols
  }

  /** How many of `terms` sort by a grouping column. */
  function CountQualifying(terms: seq<string>, cols: seq<string>): (n: nat)
    ensures n <= |terms|
  {
    if terms == [] then 0
    else (if Qualifies(terms[0], cols) then 1 else 0) + CountQualifying(terms[1..], cols)
  }

  /** The filter keeps as many terms as qualify. */
  lemma {:induction false} GroupingTermsLength(terms: seq<string>, cols: seq<string>)
    requires AllNamed(terms)
    ensures |GroupingTerms(terms, cols)| == CountQualifying(terms, cols)
  {
    if terms != [] {
      assert AllNamed(terms[1..]) by {
        forall i | 0 <= i < |terms[1..]| ensures !IsBlank(terms[1..][i]) {
          assert terms[1..][i] == terms[i + 1];
        }
      }
      GroupingTermsLength(terms[1..], cols);
    }
  }

  /**
   * The filter keeps the order of the terms: a qualifying term sits in the result at
   * the position given by the number of qualifying terms before it.
   */
  lemma {:induction false} GroupingTermsAt(terms: seq<string>, cols: seq<string>, j: int)
    requires AllNamed(terms) && 0 <= j < |terms| && Qualifies(terms[j], cols)
    ensures CountQualifying(terms[..j], cols) < |GroupingTerms(terms, cols)|
    ensures GroupingTerms(terms, cols)[CountQualifying(terms[..j], cols)] == terms[j]
    decreases j
  {
    var rest := terms[1..];
    assert AllNamed(rest) by {
      forall i | 0 <= i < |rest| ensures !IsBlank(rest[i]) {
        assert rest[i] == terms[i + 1];
      }
    }
    if j == 0 {
      assert terms[..0] == [];
    } else {
      assert rest[j - 1] == terms[j];
      GroupingTermsAt(rest, cols, j - 1);
      assert terms[..j][0] == terms[0] && terms[..j][1..] == rest[..j - 1];
    }
  }

  /** Filtering a longer list filters the extra term on its own and appends it. */
  lemma {:induction false} GroupingTermsSnoc(terms: seq<string>, t: string, cols: seq<string>)
    requires AllNamed(terms) && !IsBlank(t)
    ensures AllNamed(terms + [t])
    ensures GroupingTerms(terms + [t], cols)
            == GroupingTerms(terms, cols) + (if FirstWord(t) in cols then [t] else [])
    decreases |terms|
  {
    var ts := terms + [t];
    assert AllNamed(ts) by {
      forall i | 0 <= i < |ts| ensures !IsBlank(ts[i]) {
        if i < |terms| {
          assert ts[i] == terms[i];
        }
      }
    }
    if terms == [] {
      assert ts == [t];
    } else {
      assert AllNamed(terms[1..]) by {
        forall i | 0 <= i < |terms[1..]| ensures !IsBlank(terms[1..][i]) {
          assert terms[1..][i] == terms[i + 1];
        }
      }
      assert ts[1..] == terms[1..] + [t] && ts[0] == terms[0];
      GroupingTermsSnoc(terms[1..], t, cols);
    }
  }

  /** What `build_order_sql` needs: when it splits the sort expression, no term is blank. */
  predicate OrderDefined(p: FetchParams) {
    p.sort.None? || p.sort.value == "" || !IsDoingGrouping(p) || AllNamed(SortTerms(p.sort.value))
  }

  /**
   * `build_order_sql`: while grouping, the sort term for the current level among the
   * terms that sort by a grouping column; otherwise the caller's expression verbatim.
   */
  function BuildOrder(p: FetchParams): (r: string)
    requires OrderDefined(p)
    ensures r == "" <==> (p.sort.None? || p.sort.value == "")
    ensures !IsDoingGrouping(p) && r != "" ==> r == "ORDER BY " + p.sort.value
  {
    if p.sort.None? || p.sort.value == "" then ""
    else if IsDoingGrouping(p) then
      var orderParts := SortTerms(p.sort.value);
      var filteredParts := GroupingTerms(orderParts, p.rowGroupCols);
      if filteredParts != [] && |filteredParts| > |p.groupKeys| then
        "ORDER BY " + filteredParts[|p.groupKeys|]
      else
        "ORDER BY " + p.sort.value
    else
      "ORDER BY " + p.sort.value
  }

  /**
   * A non-empty ORDER BY either repeats the caller's expression or names one trimmed
   * term of it, and such a term sorts by a grouping column.
   */
  lemma OrderByOrigin(p: FetchParams)
    requires OrderDefined(p) && p.sort.Some? && p.sort.value != ""
    ensures var r := BuildOrder(p);
            || r == "ORDER BY " + p.sort.value
            || exists t :: t in SortTerms(p.sort.value) && !IsBlank(t)
                           && FirstWord(t) in p.rowGroupCols && r == "ORDER BY " + t
  {
    if IsDoingGrouping(p) {
      var filteredParts := GroupingTerms(SortTerms(p.sort.value), p.rowGroupCols);
      if filteredParts != [] && |filteredParts| > |p.groupKeys| {
        GroupingTermsExact(SortTerms(p.sort.value), p.rowGroupCols);
        var t := filteredParts[|p.groupKeys|];
        assert t in SortTerms(p.sort.value) && FirstWord(t) in p.rowGroupCols;
      }
    }
  }

  /** When every term sorts by a grouping column, the filter keeps the terms unchanged. */
  lemma {:induction false} GroupingTermsKeepsAll(terms: seq<string>, cols: seq<string>)
    requires AllNamed(terms)
    requires forall i :: 0 <= i < |terms| ==> FirstWord(terms[i]) in cols
    ensures GroupingTerms(terms, cols) == terms
  {
    if terms != [] {
      assert AllNamed(terms[1..]);
      assert forall i :: 0 <= i < |terms[1..]| ==> FirstWord(terms[1..][i]) in cols by {
        forall i | 0 <= i < |terms[1..]| ensures FirstWord(terms[1..][i]) in cols {
          assert terms[1..][i] == terms[i + 1];
        }
      }
      GroupingTermsKeepsAll(terms[1..], cols);
      assert terms == [terms[0]] + terms[1..];
    }
  }

  /**
   * The grid's usual sort model lists one term per grouping column: then each drill-down
   * level sorts by its own term, and a level past the listed terms sorts by the whole
   * expression.
   */
  lemma OrderFollowsLevel(p: FetchParams)
    requires IsDoingGrouping(p) && p.sort.Some? && p.sort.value != ""
    requires AllNamed(SortTerms(p.sort.value))
    requires forall i :: 0 <= i < |SortTerms(p.sort.value)| ==> FirstWord(SortTerms(p.sort.value)[i]) in p.rowGroupCols
    ensures var terms := SortTerms(p.sort.value);
            && (|terms| > |p.groupKeys| ==> BuildOrder(p) == "ORDER BY " + terms[|p.groupKeys|])
            && (|terms| <= |p.groupKeys| ==> BuildOrder(p) == "ORDER BY " + p.sort.value)
  {
    var terms := SortTerms(p.sort.value);
    GroupingTermsKeepsAll(terms, p.rowGroupCols);
    GroupedOrder(p);
  }

  /** While grouping, ORDER BY picks the filtered term at the current level when there is one. */
  lemma GroupedOrder(p: FetchParams)
    requires IsDoingGrouping(p) && p.sort.Some? && p.sort.value != ""
    requires AllNamed(SortTerms(p.sort.value))
    ensures var f := GroupingTerms(SortTerms(p.sort.value), p.rowGroupCols);
            && (|f| > |p.groupKeys| ==> BuildOrder(p) == "ORDER BY " + f[|p.groupKeys|])
            && (|f| <= |p.groupKeys| ==> BuildOrder(p) == "ORDER BY " + p.sort.value)
  {
    var f := GroupingTerms(SortTerms(p.sort.value), p.rowGroupCols);
    assert BuildOrder(p) == if f != [] && |f| > |p.groupKeys| then "ORDER BY " + f[|p.groupKeys|] else "ORDER BY " + p.sort.value;
  }

  /**
   * While grouping at level `k` (the number of chosen keys), ORDER BY names the term that
   * has exactly `k` qualifying terms before it.
   */
  lemma OrderAtLevel(p: FetchParams, j: int)
    requires IsDoingGrouping(p) && p.sort.Some? && p.sort.value != ""
    requires AllNamed(SortTerms(p.sort.value))
    requires 0 <= j < |SortTerms(p.sort.value)| && Qualifies(SortTerms(p.sort.value)[j], p.rowGroupCols)
    requires CountQualifying(SortTerms(p.sort.value)[..j], p.rowGroupCols) == |p.groupKeys|
    ensures BuildOrder(p) == "ORDER BY " + SortTerms(p.sort.value)[j]
  {
    var terms := SortTerms(p.sort.value);
    var f := GroupingTerms(terms, p.rowGroupCols);
    GroupingTermsAt(terms, p.rowGroupCols, j);
    GroupedOrder(p);
  }

  /** When no more terms qualify than there are chosen keys, ORDER BY falls back to the whole expression. */
  lemma OrderPastLevels(p: FetchParams)
    requires IsDoingGrouping(p) && p.sort.Some? && p.sort.value != ""
    requires AllNamed(SortTerms(p.sort.value))
    requires CountQualifying(SortTerms(p.sort.value), p.rowGroupCols) <= |p.groupKeys|
    ensures BuildOrder(p) == "ORDER BY " + p.sort.value
  {
    var terms := SortTerms(p.sort.value);
    GroupingTermsLength(terms, p.rowGroupCols);
    GroupedOrder(p);
  }

  // ---------------------------------------------------------------- COUNT

  /** The grouped count's text up to the grouping column, with the source's exact layout. */
  const CountOpen: string := "\n            SELECT COUNT(*) \n            FROM (\n                SELECT DISTINCT "
  /** The line break and indentation after the grouping column and after the FROM text. */
  const CountBreak: string := " \n                "
  /** The closing parenthesis of the grouped count's sub-select, on its own line. */
  const CountClose: string := "\n            )\n        "

  /**
   * `build_count_sql`: the number of rows, or while grouping the number of distinct values
   * of the next undrilled column, over the caller's FROM and WHERE text.
   */
  function BuildCount(p: FetchParams, fromSql: string, whereSql: string): (r: string)
    ensures !IsDoingGrouping(p) ==> r == "SELECT COUNT(*) " + fromSql + " " + whereSql
    ensures IsDoingGrouping(p) ==>
              r == CountOpen + p.rowGroupCols[|p.groupKeys|] + CountBreak + fromSql + CountBreak
                   + whereSql + CountClose
  {
    if IsDoingGrouping(p) then
      var rowGroupCol := GroupColumn(p);
      CountOpen + rowGroupCol + CountBreak + fromSql + CountBreak + whereSql + CountClose
    else
      "SELECT COUNT(*) " + fromSql + " " + whereSql
  }

  // ---------------------------------------------------------------- relations between fragments

  /**
   * While grouping, the select list, the GROUP BY clause and the counted DISTINCT column
   * all name the same column: the next undrilled one (unquoted in select and count,
   * double-quoted in GROUP BY).
   */
  lemma FragmentsShareGroupColumn(p: FetchParams, fromSql: string, whereSql: string)
    requires IsDoingGrouping(p)
    ensures var col := p.rowGroupCols[|p.groupKeys|];
            var sel := BuildSelect(p);
            var cnt := BuildCount(p, fromSql, whereSql);
            && sel[|RowKeySelect|..] == col
            && BuildGroup(p)[10..|BuildGroup(p)| - 1] == col
            && cnt[|CountOpen|..|CountOpen| + |col| + 1] == col + " "
  {
    GroupByNamesColumn(p);
    CountNamesColumn(p, fromSql, whereSql);
  }

  /** While grouping, GROUP BY quotes the next undrilled column and nothing else. */
  lemma GroupByNamesColumn(p: FetchParams)
    requires IsDoingGrouping(p)
    ensures BuildGroup(p)[10..|BuildGroup(p)| - 1] == p.rowGroupCols[|p.groupKeys|]
  {
    var col := GroupColumn(p);
    assert BuildGroup(p) == "GROUP BY \"" + col + "\"";
  }

  /** While grouping, the count selects the distinct values of the next undrilled column. */
  lemma CountNamesColumn(p: FetchParams, fromSql: string, whereSql: string)
    requires IsDoingGrouping(p)
    ensures var col := p.rowGroupCols[|p.groupKeys|];
            BuildCount(p, fromSql, whereSql)[|CountOpen|..|CountOpen| + |col| + 1] == col + " "
  {
    var col := GroupColumn(p);
    var cnt := BuildCount(p, fromSql, whereSql);
    assert cnt == CountOpen + (col + " ") + ("\n                " + fromSql + CountBreak
        + whereSql + CountClose);
  }

  /** A request without grouping columns fetches plain rows, whatever keys it carries. */
  lemma PlainRequest(p: FetchParams, fromSql: string, whereSql: string)
    requires p.rowGroupCols == []
    ensures WhereDefined(p) && OrderDefined(p)
    ensures BuildSelect(p) == "SELECT *"
    ensures BuildWhere(p) == ""
    ensures BuildGroup(p) == ""
    ensures BuildCount(p, fromSql, whereSql) == "SELECT COUNT(*) " + fromSql + " " + whereSql
    ensures p.sort.Some? && p.sort.value != "" ==> BuildOrder(p) == "ORDER BY " + p.sort.value
  {
  }

  /**
   * Once every grouping level has a chosen value the fetch returns the leaf rows:
   * no row key or GROUP BY, the whole path in WHERE, the sort passed through.
   */
  lemma LeafLevel(p: FetchParams)
    requires |p.groupKeys| == |p.rowGroupCols| > 0
    ensures WhereDefined(p) && OrderDefined(p) && !IsDoingGrouping(p)
    ensures BuildSelect(p) == "SELECT *" && BuildGroup(p) == ""
    ensures BuildWhere(p) == " WHERE " + Join(" AND ", Conditions(p.rowGroupCols, p.groupKeys))
    ensures p.sort.Some? && p.sort.value != "" ==> BuildOrder(p) == "ORDER BY " + p.sort.value
  {
  }

  /** The fragments of a request built with only its window given. */
  lemma DefaultRequestFragments(startRow: int, endRow: int)
    requires 0 <= startRow < endRow
    ensures var p := NewFetchParams(startRow, endRow).value;
            && BuildSelect(p) == "SELECT *" && BuildWhere(p) == ""
            && BuildGroup(p) == "" && BuildOrder(p) == ""
  {
    DefaultsWhenOmitted(startRow, endRow);
  }
}
