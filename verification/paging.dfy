/** Sort criteria and page slicing shared by the category and order
    listings. Comparing rows by a named property is not modelled: the
    repository's sorted result is given as an ordering of the table's keys,
    and what is modelled is the check on the property name, the choice of
    direction, and the page cut. */
module Paging {
  import opened Wrappers
  import opened Errors

  datatype Direction = Ascending | Descending

  /** `Character.toUpperCase` on the characters that can match an ASCII
      letter: the ASCII lower-case letters and U+017F, the long s, whose
      upper case is 'S'. Every other character is its own upper case here. */
  function UpperCase(c: char): char {
    if 'a' <= c <= 'z' then (c as int - 32) as char
    else if c == 'ſ' then 'S'
    else c
  }

  /** `Character.toLowerCase` on the ASCII upper-case letters. */
  function LowerCase(c: char): char {
    if 'A' <= c <= 'Z' then (c as int + 32) as char else c
  }

  /** Java's `equalsIgnoreCase`, character by character: equal, or equal
      upper cases, or equal lower cases of the upper cases. */
  predicate SameIgnoringCase(c: char, d: char) {
    c == d || UpperCase(c) == UpperCase(d) || LowerCase(UpperCase(c)) == LowerCase(UpperCase(d))
  }

  predicate EqualsIgnoreCase(s: string, t: string) {
    |s| == |t| && forall i | 0 <= i < |s| :: SameIgnoringCase(s[i], t[i])
  }

  /** `buildSortCriteria`: ascending exactly for "asc" in any case. */
  function SortDirection(sortOrder: string): (r: Direction)
    ensures r == Ascending <==> EqualsIgnoreCase(sortOrder, "asc")
  {
    if EqualsIgnoreCase(sortOrder, "asc") then Ascending else Descending
  }

  /** `Character.isWhitespace`: the Unicode space, line and paragraph
      separators other than the no-break spaces U+00A0, U+2007 and U+202F,
      and the control characters U+0009 to U+000D and U+001C to U+001F. */
  predicate IsWhitespace(c: char) {
    || ('\t' <= c <= '\r') || ('\U{001C}' <= c <= ' ')
    || c == '\U{1680}' || ('\U{2000}' <= c <= '\U{2006}') || ('\U{2008}' <= c <= '\U{200A}')
    || c == '\U{2028}' || c == '\U{2029}' || c == '\U{205F}' || c == '\U{3000}'
  }

  /** `StringUtils.hasText`: some character is not whitespace. */
  predicate HasText(s: string) {
    exists i | 0 <= i < |s| :: !IsWhitespace(s[i])
  }

  /** `buildSortCriteria(sortBy, sortOrder)`: `Sort.by(sortBy)` builds a
      `Sort.Order`, which rejects a property name without text as an
      illegal argument; otherwise the direction is chosen from the sort
      order. */
  function SortCriteria(sortBy: string, sortOrder: string): (r: Result<Direction, Error>)
    ensures r.Failure? <==> !HasText(sortBy)
    ensures r.Failure? ==> r.error == IllegalArgument
    ensures r.Success? ==> (r.value == Ascending <==> EqualsIgnoreCase(sortOrder, "asc"))
  {
    if HasText(sortBy) then Success(SortDirection(sortOrder)) else Failure(IllegalArgument)
  }

  /** Property names as the listing endpoints receive them: empty and blank
      names are rejected, a padded name is accepted. */
  lemma SortCriteriaExamples()
    ensures SortCriteria("", "asc") == Failure(IllegalArgument)
    ensures SortCriteria(" \t", "asc") == Failure(IllegalArgument)
    ensures SortCriteria("\U{3000}", "desc") == Failure(IllegalArgument)
    ensures SortCriteria(" name", "ASC") == Success(Ascending)
    ensures SortCriteria("\U{00A0}", "desc") == Success(Descending)
  {
    assert !IsWhitespace(" name"[1]);
    assert !IsWhitespace("\U{00A0}"[0]);
  }

  /** The accepted spellings, listed character by character: three
      characters, an a, an s (or the long s) and a c, each in either case. */
  lemma AscendingSpellings(sortOrder: string)
    ensures SortDirection(sortOrder) == Ascending <==>
              && |sortOrder| == 3
              && (sortOrder[0] == 'a' || sortOrder[0] == 'A')
              && (sortOrder[1] == 's' || sortOrder[1] == 'S' || sortOrder[1] == 'ſ')
              && (sortOrder[2] == 'c' || sortOrder[2] == 'C')
  {
  }

  /** A few spellings, as the listing endpoints receive them. */
  lemma SortDirectionExamples()
    ensures SortDirection("asc") == Ascending && SortDirection("ASC") == Ascending
    ensures SortDirection("aSc") == Ascending
    ensures SortDirection("desc") == Descending && SortDirection("") == Descending
    ensures SortDirection("ascending") == Descending
  {
  }

  /** `PageRequest.of(pageNumber, pageSize)` applied to a listing: a
      negative page number or a page size below one is rejected; otherwise
      the page holds the elements from `pageNumber * pageSize` on, at most
      `pageSize` of them. */
  function PageOf<T>(listing: seq<T>, pageNumber: int, pageSize: int): (r: Result<seq<T>, Error>)
    ensures r.Failure? <==> pageNumber < 0 || pageSize < 1
    ensures r.Failure? ==> r.error == IllegalArgument
    ensures r.Success? ==> |r.value| <= pageSize
    ensures r.Success? ==> (|r.value| == 0 <==> pageNumber * pageSize >= |listing|)
    ensures r.Success? && (pageNumber + 1) * pageSize <= |listing| ==> |r.value| == pageSize
    ensures r.Success? && pageNumber * pageSize < |listing| < (pageNumber + 1) * pageSize ==>
              |r.value| == |listing| - pageNumber * pageSize
    ensures r.Success? ==>
              forall k | 0 <= k < |r.value| ::
                pageNumber * pageSize + k < |listing| && r.value[k] == listing[pageNumber * pageSize + k]
  {
    if pageNumber < 0 || pageSize < 1 then Failure(IllegalArgument)
    else
      var start := pageNumber * pageSize;
      if start >= |listing| then Success([])
      else
        var end := if start + pageSize < |listing| then start + pageSize else |listing|;
        Success(listing[start..end])
  }

  /** Every element of a listing is on exactly the page its index names:
      page `i / pageSize`, position `i % pageSize`. */
  lemma PagesCoverListing<T>(listing: seq<T>, pageSize: int, i: int)
    requires pageSize >= 1 && 0 <= i < |listing|
    ensures var page := PageOf(listing, i / pageSize, pageSize);
            && page.Success?
            && i % pageSize < |page.value|
            && page.value[i % pageSize] == listing[i]
  {
    var n := i / pageSize;
    var k := i % pageSize;
    assert n * pageSize + k == i;
    assert n * pageSize <= i;
    var page := PageOf(listing, n, pageSize);
    var start := n * pageSize;
    var end := if start + pageSize < |listing| then start + pageSize else |listing|;
    assert page.value == listing[start..end];
    assert start + k < end;
  }

  /** The repository's sorted result, given as the table's keys in the
      order the rows come back: every key of the table exactly once. */
  predicate IsOrdering<K, V>(rows: map<K, V>, order: seq<K>) {
    && |order| == |rows|
    && (forall i | 0 <= i < |order| :: order[i] in rows)
    && (forall i, j | 0 <= i < j < |order| :: order[i] != order[j])
  }

  /** The rows of a table in the given key order. */
  function Arrange<K, V>(rows: map<K, V>, order: seq<K>): (r: seq<V>)
    requires forall i | 0 <= i < |order| :: order[i] in rows
    ensures |r| == |order|
    ensures forall i | 0 <= i < |order| :: r[i] == rows[order[i]]
  {
    if |order| == 0 then [] else [rows[order[0]]] + Arrange(rows, order[1..])
  }

  /** The elements of a sequence as a set. */
  function Elements<K>(s: seq<K>): (r: set<K>)
    ensures forall x | x in r :: x in s
    ensures forall i | 0 <= i < |s| :: s[i] in r
  {
    if |s| == 0 then {} else {s[0]} + Elements(s[1..])
  }

  /** A sequence without repeats has as many elements as its set. */
  lemma {:induction false} DistinctElements<K>(s: seq<K>)
    requires forall i, j | 0 <= i < j < |s| :: s[i] != s[j]
    ensures |Elements(s)| == |s|
  {
    if |s| > 0 {
      DistinctElements(s[1..]);
      assert s[0] !in s[1..] by {
        forall k | 0 <= k < |s[1..]| ensures s[1..][k] != s[0] {
          assert s[1..][k] == s[k + 1];
        }
      }
      assert s[0] !in Elements(s[1..]);
    }
  }

  /** An ordering misses no row: as many distinct keys as the table has,
      all drawn from it, are all of its keys. */
  lemma OrderingCoversRows<K, V>(rows: map<K, V>, order: seq<K>)
    requires IsOrdering(rows, order)
    ensures forall k | k in rows :: k in order
  {
    DistinctElements(order);
    var listed := Elements(order);
    assert listed <= rows.Keys;
    assert |listed| == |rows.Keys|;
    assert rows.Keys * listed == listed;
    assert |rows.Keys - listed| == 0;
    forall k | k in rows ensures k in order {
      assert k !in rows.Keys - listed;
    }
  }

  /** The position of a key in an ordering that lists it. */
  function IndexOf<K(==)>(s: seq<K>, x: K): (r: nat)
    requires x in s
    ensures r < |s| && s[r] == x
  {
    if s[0] == x then 0 else 1 + IndexOf(s[1..], x)
  }
}
