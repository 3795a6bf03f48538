/**
 * The "das crazy" de-duplication pass of clean.py: one walk over the raw chat
 * rows in order, keeping a row when its lowercased message contains "crazy"
 * and it was sent at least 30 seconds after the last row kept so far (the
 * indicator row). Timestamps are whole microseconds.
 */
module Clean {
  import opened Results
  import opened Text

  /** One row of the raw dataset; `sent` is in microseconds. */
  datatype Row = Row(sent: int, gameName: string, title: string, user: string, message: string)

  const KEYWORD := "crazy"
  const MICROS_PER_SECOND := 1_000_000
  /** The grouping window: 30 seconds. */
  const WINDOW := 30 * MICROS_PER_SECOND

  /** The keyword test of the loop: `"crazy" in row['message'].lower()`. */
  predicate Mentions(row: Row)
  {
    Contains(Lower(row.message), KEYWORD)
  }

  /** Whether `row` is kept when `kept` are the rows kept before it: the last of them is the indicator. */
  predicate Keeps(kept: seq<Row>, row: Row)
  {
    Mentions(row) && (kept == [] || row.sent - kept[|kept| - 1].sent >= WINDOW)
  }

  /** The rows the pass keeps, defined by deciding the last row from the rows kept before it. */
  function Filter(rows: seq<Row>): seq<Row>
  {
    if rows == [] then []
    else
      var kept := Filter(rows[..|rows| - 1]);
      if Keeps(kept, rows[|rows| - 1]) then kept + [rows[|rows| - 1]] else kept
  }

  /** The loop of clean.py over an in-memory table. */
  method CleanRows(rawData: seq<Row>) returns (cleanData: seq<Row>)
    ensures cleanData == Filter(rawData)
  {
    var indicator: Option<Row> := None;
    cleanData := [];
    for i := 0 to |rawData|
      invariant cleanData == Filter(rawData[..i])
      invariant indicator == if cleanData == [] then None else Some(cleanData[|cleanData| - 1])
    {
      var row := rawData[i];
      assert rawData[..i + 1][..i] == rawData[..i];
      if Mentions(row) {
        if indicator.None? || row.sent - indicator.value.sent >= WINDOW {
          indicator := Some(row);
          cleanData := cleanData + [row];
        }
      }
    }
    assert rawData[..|rawData|] == rawData;
  }

  // ---------------------------------------------------------------------------
  // Properties of the pass

  /** `sub` is `s` with some elements left out, the rest in their original order. */
  predicate IsSubsequence<T(==)>(sub: seq<T>, s: seq<T>)
    decreases |s|
  {
    || sub == []
    || (s != [] && (|| IsSubsequence(sub, s[..|s| - 1])
                    || (sub[|sub| - 1] == s[|s| - 1] && IsSubsequence(sub[..|sub| - 1], s[..|s| - 1]))))
  }

  /** Consecutive rows are at least the window apart. */
  predicate Spaced(rows: seq<Row>)
  {
    forall k :: 0 <= k < |rows| - 1 ==> rows[k + 1].sent - rows[k].sent >= WINDOW
  }

  /** The input rows that mention the keyword, in order. */
  function MentionRows(rows: seq<Row>): (r: seq<Row>)
    ensures forall k :: 0 <= k < |r| ==> Mentions(r[k])
  {
    if rows == [] then []
    else if Mentions(rows[|rows| - 1]) then MentionRows(rows[..|rows| - 1]) + [rows[|rows| - 1]]
    else MentionRows(rows[..|rows| - 1])
  }

  /** The output keeps the input's order: it is a subsequence of the input. */
  lemma {:induction false} FilterIsSubsequence(rows: seq<Row>)
    ensures IsSubsequence(Filter(rows), rows)
  {
    if rows != [] {
      var init := rows[..|rows| - 1];
      FilterIsSubsequence(init);
      var kept := Filter(init);
      if Keeps(kept, rows[|rows| - 1]) {
        assert Filter(rows)[..|Filter(rows)| - 1] == kept;
      }
    }
  }

  /** Every kept row mentions the keyword, and kept rows are at least 30 seconds apart. */
  lemma {:induction false} FilterMentionsAndSpaced(rows: seq<Row>)
    ensures forall k :: 0 <= k < |Filter(rows)| ==> Mentions(Filter(rows)[k])
    ensures Spaced(Filter(rows))
  {
    if rows != [] {
      FilterMentionsAndSpaced(rows[..|rows| - 1]);
    }
  }

  /** The rows kept from a prefix of the input are a prefix of the rows kept from all of it. */
  lemma {:induction false} FilterOfPrefix(rows: seq<Row>, j: nat)
    requires j <= |rows|
    ensures |Filter(rows[..j])| <= |Filter(rows)|
    ensures Filter(rows[..j]) == Filter(rows)[..|Filter(rows[..j])|]
    decreases |rows| - j
  {
    if j < |rows| {
      FilterOfPrefix(rows, j + 1);
      assert rows[..j + 1][..j] == rows[..j];
    } else {
      assert rows[..j] == rows;
    }
  }

  /** The first row that mentions the keyword is always kept, as the first output row. */
  lemma {:induction false} FirstMentionKept(rows: seq<Row>, i: nat)
    requires i < |rows| && Mentions(rows[i])
    requires forall k :: 0 <= k < i ==> !Mentions(rows[k])
    ensures Filter(rows) != [] && Filter(rows)[0] == rows[i]
  {
    NothingBeforeFirstMention(rows, i);
    var p := rows[..i + 1];
    assert p[..|p| - 1] == rows[..i] && p[|p| - 1] == rows[i];
    assert Filter(p) == [rows[i]];
    FilterOfPrefix(rows, i + 1);
    assert Filter(rows)[..1] == [rows[i]];
  }

  lemma {:induction false} NothingBeforeFirstMention(rows: seq<Row>, i: nat)
    requires i <= |rows|
    requires forall k :: 0 <= k < i ==> !Mentions(rows[k])
    ensures Filter(rows[..i]) == []
  {
    if i > 0 {
      NothingBeforeFirstMention(rows, i - 1);
      assert rows[..i][..i - 1] == rows[..i - 1];
    }
  }

  /**
   * A row that mentions the keyword is dropped exactly when some row was kept
   * before it and it was sent less than 30 seconds after the latest kept one;
   * an earlier timestamp (a negative difference) counts as less.
   */
  lemma DroppedIff(rows: seq<Row>, i: nat)
    requires i < |rows| && Mentions(rows[i])
    ensures var before := Filter(rows[..i]);
            && (Filter(rows[..i + 1]) == before
                <==> before != [] && rows[i].sent - before[|before| - 1].sent < WINDOW)
            && (Filter(rows[..i + 1]) == before + [rows[i]]
                <==> before == [] || rows[i].sent - before[|before| - 1].sent >= WINDOW)
  {
    assert rows[..i + 1][..i] == rows[..i];
    var before := Filter(rows[..i]);
    assert |before + [rows[i]]| != |before|;
  }

  /** A row sent before the indicator is dropped too: 100 s then 90 s keeps only the first. */
  lemma EarlierTimestampDropped(first: Row, second: Row)
    requires Mentions(first) && Mentions(second)
    requires first.sent == 100 * MICROS_PER_SECOND && second.sent == 90 * MICROS_PER_SECOND
    ensures Filter([first, second]) == [first]
  {
    assert [first][..0] == [];
    assert Filter([first]) == [first];
    assert [first, second][..1] == [first];
  }

  /** Rows that do not mention the keyword never move the indicator: removing them changes nothing. */
  lemma {:induction false} NonMentionsIrrelevant(rows: seq<Row>)
    ensures Filter(MentionRows(rows)) == Filter(rows)
  {
    if rows != [] {
      var init := rows[..|rows| - 1];
      NonMentionsIrrelevant(init);
      if Mentions(rows[|rows| - 1]) {
        var m := MentionRows(rows);
        assert m[..|m| - 1] == MentionRows(init);
      }
    }
  }

  /** Rows that all mention the keyword and are already spaced pass through unchanged. */
  lemma {:induction false} FilterKeepsSpaced(rows: seq<Row>)
    requires forall k :: 0 <= k < |rows| ==> Mentions(rows[k])
    requires Spaced(rows)
    ensures Filter(rows) == rows
  {
    if rows != [] {
      var init := rows[..|rows| - 1];
      FilterKeepsSpaced(init);
      if |init| > 0 {
        assert rows[|rows| - 1].sent - init[|init| - 1].sent >= WINDOW;
      }
    }
  }

  /** Cleaning an already clean table changes nothing. */
  lemma {:induction false} FilterIdempotent(rows: seq<Row>)
    ensures Filter(Filter(rows)) == Filter(rows)
  {
    FilterMentionsAndSpaced(rows);
    FilterKeepsSpaced(Filter(rows));
  }
}
