/**
  Construction of the common-password dictionary from the rows of a CSV file.
  A row is the header-to-value map a CSV dictionary reader yields; the file itself is
  `Some(rows)` when it can be opened and `None` when it is missing.
 */
module PasswordsSet {
  import opened Wrappers
  import opened AsciiText

  type Row = map<string, string>

  /** The only column the loader reads. */
  const PASSWORD_COLUMN: string := "password"

  /** The row filter: the row has a `password` field whose stripped value is non-empty. */
  predicate Accepts(row: Row) {
    PASSWORD_COLUMN in row && Strip(row[PASSWORD_COLUMN]) != []
  }

  /** The dictionary entry of a row: its password, stripped, then lower-cased. */
  function Entry(row: Row): string
    requires PASSWORD_COLUMN in row
  {
    Lower(Strip(row[PASSWORD_COLUMN]))
  }

  /** The set the loader has built after reading `rows`, one row at a time. */
  function Collected(rows: seq<Row>): set<string> {
    if rows == [] then {}
    else
      var last := rows[|rows| - 1];
      Collected(rows[..|rows| - 1]) + (if Accepts(last) then {Entry(last)} else {})
  }

  /** Reads every row, adding the normalised password of each accepted row to the set;
      a missing file gives the empty set. */
  method LoadDictionary(source: Option<seq<Row>>) returns (commonPasswords: set<string>)
    ensures source.None? ==> commonPasswords == {}
    ensures source.Some? ==> commonPasswords == Collected(source.value)
    ensures forall w :: w in commonPasswords ==> w != [] && IsNormalised(w)
  {
    commonPasswords := {};
    match source {
      case None =>
      case Some(rows) =>
        for i := 0 to |rows|
          invariant commonPasswords == Collected(rows[..i])
        {
          var row := rows[i];
          if PASSWORD_COLUMN in row && Strip(row[PASSWORD_COLUMN]) != [] {
            commonPasswords := commonPasswords + {Lower(Strip(row[PASSWORD_COLUMN]))};
          }
          assert rows[..i + 1][..i] == rows[..i];
        }
        assert rows[..|rows|] == rows;
        CollectedWellFormed(rows);
    }
  }

  /** Soundness: every entry is the normalised password of some accepted row. */
  lemma {:induction false} CollectedSound(rows: seq<Row>, w: string)
    requires w in Collected(rows)
    ensures exists k :: 0 <= k < |rows| && Accepts(rows[k]) && Entry(rows[k]) == w
  {
    var n := |rows| - 1;
    if Accepts(rows[n]) && w == Entry(rows[n]) {
    } else {
      CollectedSound(rows[..n], w);
      var k :| 0 <= k < n && Accepts(rows[..n][k]) && Entry(rows[..n][k]) == w;
      assert rows[..n][k] == rows[k];
    }
  }

  /** Completeness: every accepted row has its normalised password in the set. */
  lemma {:induction false} CollectedComplete(rows: seq<Row>, k: int)
    requires 0 <= k < |rows| && Accepts(rows[k])
    ensures Entry(rows[k]) in Collected(rows)
  {
    var n := |rows| - 1;
    if k < n {
      assert rows[..n][k] == rows[k];
      CollectedComplete(rows[..n], k);
    }
  }

  /** Membership, both directions at once. */
  lemma {:induction false} CollectedMembership(rows: seq<Row>, w: string)
    ensures w in Collected(rows) <==> exists k :: 0 <= k < |rows| && Accepts(rows[k]) && Entry(rows[k]) == w
  {
    if w in Collected(rows) {
      CollectedSound(rows, w);
    }
    if exists k :: 0 <= k < |rows| && Accepts(rows[k]) && Entry(rows[k]) == w {
      var k :| 0 <= k < |rows| && Accepts(rows[k]) && Entry(rows[k]) == w;
      CollectedComplete(rows, k);
    }
  }

  /** No entry is empty, and every entry is unchanged by `lower()` and by `strip()`. */
  lemma CollectedWellFormed(rows: seq<Row>)
    ensures forall w :: w in Collected(rows) ==> w != [] && IsNormalised(w)
  {
    forall w | w in Collected(rows)
      ensures w != [] && IsNormalised(w)
    {
      CollectedSound(rows, w);
      var k :| 0 <= k < |rows| && Accepts(rows[k]) && Entry(rows[k]) == w;
      NormalisedForm(rows[k][PASSWORD_COLUMN]);
      LowerIdempotent(Strip(rows[k][PASSWORD_COLUMN]));
    }
  }

  /** Rows of `a` that are accepted all occur in `b`, so `b` collects at least as much. */
  lemma CollectedSubset(a: seq<Row>, b: seq<Row>)
    requires forall k :: 0 <= k < |a| && Accepts(a[k]) ==> exists j :: 0 <= j < |b| && b[j] == a[k]
    ensures Collected(a) <= Collected(b)
  {
    forall w | w in Collected(a)
      ensures w in Collected(b)
    {
      CollectedSound(a, w);
      var k :| 0 <= k < |a| && Accepts(a[k]) && Entry(a[k]) == w;
      var j :| 0 <= j < |b| && b[j] == a[k];
      CollectedComplete(b, j);
    }
  }

  /** A rejected row (no `password` key, or a blank password) contributes nothing,
      wherever it stands among the rows. */
  lemma RejectedRowIgnored(before: seq<Row>, row: Row, after: seq<Row>)
    requires !Accepts(row)
    ensures Collected(before + [row] + after) == Collected(before + after)
  {
    var withRow := before + [row] + after;
    var without := before + after;
    forall k | 0 <= k < |withRow| && Accepts(withRow[k])
      ensures exists j :: 0 <= j < |without| && without[j] == withRow[k]
    {
      if k < |before| {
        assert without[k] == withRow[k];
      } else {
        assert without[k - 1] == withRow[k];
      }
    }
    CollectedSubset(withRow, without);
    forall j | 0 <= j < |without| && Accepts(without[j])
      ensures exists k :: 0 <= k < |withRow| && withRow[k] == without[j]
    {
      if j < |before| {
        assert withRow[j] == without[j];
      } else {
        assert withRow[j + 1] == without[j];
      }
    }
    CollectedSubset(without, withRow);
  }

  /** A row with the same normalised entry as an earlier accepted row adds no new entry;
      `VariantSameEntry` gives that entry to ASCII case and whitespace variants. */
  lemma {:induction false} VariantCollapses(rows: seq<Row>, k: int, row: Row)
    requires 0 <= k < |rows| && Accepts(rows[k])
    requires PASSWORD_COLUMN in row && Entry(row) == Entry(rows[k])
    ensures Collected(rows + [row]) == Collected(rows)
  {
    assert (rows + [row])[..|rows|] == rows;
    CollectedComplete(rows, k);
  }

  /** A row whose password differs from another row's only in ASCII letter case and in
      surrounding ASCII whitespace is accepted exactly when the other is, with the same
      entry. */
  lemma VariantSameEntry(a: Row, b: Row, s: string, before: string, after: string)
    requires PASSWORD_COLUMN in a && PASSWORD_COLUMN in b
    requires Lower(a[PASSWORD_COLUMN]) == Lower(s)
    requires b[PASSWORD_COLUMN] == before + s + after
    requires forall k :: 0 <= k < |before| ==> IsSpace(before[k])
    requires forall k :: 0 <= k < |after| ==> IsSpace(after[k])
    ensures Accepts(a) <==> Accepts(b)
    ensures Entry(a) == Entry(b)
  {
    StripPadded(before, s, after);
    LowerStripCommute(a[PASSWORD_COLUMN]);
    LowerStripCommute(s);
    LowerIdempotent(Strip(a[PASSWORD_COLUMN]));
    LowerIdempotent(Strip(s));
  }

  /** A file without accepted rows gives the empty dictionary. */
  lemma {:induction false} EmptyWithoutAcceptedRows(rows: seq<Row>)
    requires forall k :: 0 <= k < |rows| ==> !Accepts(rows[k])
    ensures Collected(rows) == {}
  {
    if Collected(rows) != {} {
      var w :| w in Collected(rows);
      CollectedSound(rows, w);
    }
  }
}
