/**
 * `PaulinaScraper.extract_sizes_and_colors`: the size/colour matrix read from the page's
 * first `<table>`. The HTML enters the model already selected: the texts of the `th` cells
 * of the table head (the first is the blank corner cell) and of every `span` in the table
 * body, each already passed through `get_text(strip=True)`.
 */
module SizeColors {
  import opened Wrappers
  import opened Text

  /** What the page's table offers; a missing `thead` or `tbody` gives an empty list. */
  datatype Table = Table(headerCells: seq<string>, labelSpans: seq<string>)

  datatype SizeColorMatrix = SizeColorMatrix(
    sizes: seq<string>,
    colors: seq<string>,
    availability: map<string, map<string, bool>>)

  const SingleSize := "UNICO"

  const NoMatrix := SizeColorMatrix([], [], map[])

  /** The non-empty strings of `s`, in order (the `if size:` filter). */
  function NonEmpty(s: seq<string>): (r: seq<string>)
    ensures forall i :: 0 <= i < |r| ==> r[i] != []
    ensures forall x :: x in r <==> x in s && x != []
  {
    if s == [] then []
    else
      var init := NonEmpty(s[..|s| - 1]);
      assert s == s[..|s| - 1] + [s[|s| - 1]];
      if s[|s| - 1] != [] then init + [s[|s| - 1]] else init
  }

  /** `find_all('th')[1:]`: every header cell but the first. */
  function AfterCorner(cells: seq<string>): seq<string> {
    if cells == [] then [] else cells[1..]
  }

  /** Reference definition of the colour list: each non-empty label, the first time it is seen. */
  function ColorsOf(spans: seq<string>): seq<string> {
    if spans == [] then []
    else
      var seen := ColorsOf(spans[..|spans| - 1]);
      var c := spans[|spans| - 1];
      if c != [] && c !in seen then seen + [c] else seen
  }

  predicate NoDuplicates(s: seq<string>) {
    forall i, j :: 0 <= i < j < |s| ==> s[i] != s[j]
  }

  /**
   * The colour list has no repeats, holds exactly the non-empty labels, and lists them in
   * the order of their first appearance in the table body.
   */
  lemma {:induction false} ColorsOfFacts(spans: seq<string>)
    ensures NoDuplicates(ColorsOf(spans))
    ensures forall c :: c in ColorsOf(spans) <==> c in spans && c != []
    ensures forall i, j :: 0 <= i < j < |ColorsOf(spans)| ==>
      FirstIndex(spans, ColorsOf(spans)[i]) < FirstIndex(spans, ColorsOf(spans)[j])
    decreases |spans|
  {
    if spans != [] {
      var init := spans[..|spans| - 1];
      var c := spans[|spans| - 1];
      ColorsOfFacts(init);
      var seen := ColorsOf(init);
      assert spans == init + [c];
      forall x | x in init ensures FirstIndex(spans, x) == FirstIndex(init, x) {
        FirstIndexOfPrefix(init, c, x);
      }
      if c != [] && c !in seen {
        assert c !in init;
        assert FirstIndex(spans, c) == |init| by { FirstIndexAtEnd(init, c); }
      }
    }
  }

  /** The row of a colour: every size marked available. */
  function FullRow(sizes: seq<string>): map<string, bool> {
    map s | s in sizes :: true
  }

  /** Every colour has a row, and every size of every row is marked available. */
  predicate AllAvailable(m: SizeColorMatrix) {
    forall c :: c in m.colors ==> c in m.availability && forall s :: s in m.sizes ==> s in m.availability[c] && m.availability[c][s]
  }

  /** The sizes loop: keeps the non-empty header texts, in order, repeats included. */
  method CollectSizes(headers: seq<string>) returns (sizes: seq<string>)
    ensures sizes == NonEmpty(headers)
  {
    sizes := [];
    var i := 0;
    while i < |headers|
      invariant 0 <= i <= |headers|
      invariant sizes == NonEmpty(headers[..i])
    {
      assert headers[..i + 1][..i] == headers[..i];
      if headers[i] != [] {
        sizes := sizes + [headers[i]];
      }
      i := i + 1;
    }
    assert headers[..i] == headers;
  }

  /** The inner sizes loop: gives colour `name` a fresh row with every size set to True. */
  method MarkAllSizes(availability: map<string, map<string, bool>>, name: string, sizes: seq<string>)
    returns (result: map<string, map<string, bool>>)
    ensures result.Keys == availability.Keys + {name}
    ensures forall c :: c in availability && c != name ==> result[c] == availability[c]
    ensures result[name] == FullRow(sizes)
  {
    result := availability[name := map[]];
    var k := 0;
    while k < |sizes|
      invariant 0 <= k <= |sizes|
      invariant result.Keys == availability.Keys + {name}
      invariant forall c :: c in availability && c != name ==> result[c] == availability[c]
      invariant result[name] == FullRow(sizes[..k])
    {
      assert forall s :: s in sizes[..k + 1] <==> s in sizes[..k] || s == sizes[k];
      result := result[name := result[name][sizes[k] := true]];
      k := k + 1;
    }
    assert sizes[..k] == sizes;
  }

  /**
   * The matrix: nothing without a table; otherwise the non-empty header texts after the
   * corner cell (not deduplicated), or just "UNICO"; the deduplicated non-empty labels;
   * and a row per colour marking every size available.
   */
  method ExtractSizesAndColors(table: Option<Table>) returns (m: SizeColorMatrix)
    ensures table.None? ==> m == NoMatrix
    ensures table.Some? ==> m.sizes == (if NonEmpty(AfterCorner(table.value.headerCells)) == [] then [SingleSize]
                                        else NonEmpty(AfterCorner(table.value.headerCells)))
    ensures table.Some? ==> m.colors == ColorsOf(table.value.labelSpans)
    ensures table.Some? ==> NoDuplicates(m.colors)
    ensures table.Some? ==> forall c :: c in m.colors <==> c in table.value.labelSpans && c != []
    ensures m.availability.Keys == set c | c in m.colors
    ensures forall c :: c in m.availability ==> m.availability[c] == FullRow(m.sizes)
    ensures AllAvailable(m)
  {
    if table.None? {
      return NoMatrix;
    }
    var sizes := CollectSizes(AfterCorner(table.value.headerCells));
    if sizes == [] {
      sizes := [SingleSize];
    }

    var spans := table.value.labelSpans;
    var colors: seq<string> := [];
    var availability: map<string, map<string, bool>> := map[];
    var j := 0;
    while j < |spans|
      invariant 0 <= j <= |spans|
      invariant colors == ColorsOf(spans[..j])
      invariant availability.Keys == set c | c in colors
      invariant forall c :: c in availability ==> availability[c] == FullRow(sizes)
    {
      assert spans[..j + 1][..j] == spans[..j];
      var name := spans[j];
      if name != [] && name !in colors {
        colors := colors + [name];
        availability := MarkAllSizes(availability, name, sizes);
        assert availability.Keys == set c | c in colors;
      }
      j := j + 1;
    }
    assert spans[..j] == spans;
    ColorsOfFacts(spans);
    m := SizeColorMatrix(sizes, colors, availability);
    FullRowsAllAvailable(m);
  }

  /** A row per colour, each the full row of the sizes, marks every cell available. */
  lemma FullRowsAllAvailable(m: SizeColorMatrix)
    requires m.availability.Keys == set c | c in m.colors
    requires forall c :: c in m.availability ==> m.availability[c] == FullRow(m.sizes)
    ensures AllAvailable(m)
  {
  }
}
