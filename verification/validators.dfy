/** The row validator (`validators.py`): a pure pass over the decoded rows
    that reports, row by row and check by check, what looks wrong. Each
    issue carries its severity, the row index and what was found; the
    message text the source formats around them is not modelled.
 */
module Validators {
  import opened Wrappers
  import opened Enums
  import opened Models

  datatype Severity = Error | Warn | Info

  datatype IssueKind =
    | NoteOutOfRange(number: int)       // a NOTE number outside 0..127
    | LedWithoutMidi                    // LED floats on an IN mapping without a MIDI minimum
    | SetValueNotDirect                 // a set-to value outside DIRECT mode
    | UnusualDeckScope(deck: int)       // a deck scope outside -1..3

  datatype Issue = Issue(severity: Severity, row: nat, kind: IssueKind)

  /** The position of each check within one row's pass. */
  function Rank(k: IssueKind): nat {
    match k
    case NoteOutOfRange(_) => 0
    case LedWithoutMidi => 1
    case SetValueNotDirect => 2
    case UnusualDeckScope(_) => 3
  }

  // ---------------------------------------------------------------------------
  // The four checks

  /** A NOTE event whose number is present and outside 0..127. */
  predicate NoteNumberBad(r: Row) {
    r.midiEvent == Some("NOTE") && r.midiNumber.Some? && !(0 <= r.midiNumber.value <= 127)
  }

  /** The mapping is an input: the IN variant, or a raw 0 when the value
      was not cast. */
  predicate IsInMapping(r: Row) {
    r.mappingType == Some(Variant(In)) || r.mappingType == Some(RawInt(0))
  }

  /** An IN mapping with either LED controller float present but no LED MIDI minimum. */
  predicate LedHalfSet(r: Row) {
    IsInMapping(r) && (r.ledMinController.Some? || r.ledMaxController.Some?) && r.ledMinMidi.None?
  }

  /** The interaction mode equals 3, as the variant or as a raw integer. */
  predicate IsDirect(r: Row) {
    r.interactionMode.Some? && CastValue((m: InteractionMode) => m.Value(), r.interactionMode.value) == DIRECT_MODE
  }

  /** A set-to value while the mode is not DIRECT (a missing mode is not DIRECT). */
  predicate SetValueOutsideDirect(r: Row) {
    r.setValueTo.Some? && !IsDirect(r)
  }

  /** The integer value of a present deck scope. */
  function DeckValue(r: Row): int
    requires r.deckScope.Some?
  {
    CastValue((d: MappingTargetDeck) => d.Value(), r.deckScope.value)
  }

  /** A present deck scope other than -1, 0, 1, 2 or 3. */
  predicate DeckUnusual(r: Row) {
    r.deckScope.Some? && !(-1 <= DeckValue(r) <= 3)
  }

  // ---------------------------------------------------------------------------
  // One row

  /** The issues of row `i`, in check order. */
  function RowIssues(i: nat, r: Row): (out: seq<Issue>)
    ensures |out| <= 4
    ensures forall k :: 0 <= k < |out| ==> out[k].row == i
    ensures forall k, l :: 0 <= k < l < |out| ==> Rank(out[k].kind) < Rank(out[l].kind)
  {
    (if NoteNumberBad(r) then [Issue(Error, i, NoteOutOfRange(r.midiNumber.value))] else [])
    + (if LedHalfSet(r) then [Issue(Warn, i, LedWithoutMidi)] else [])
    + (if SetValueOutsideDirect(r) then [Issue(Info, i, SetValueNotDirect)] else [])
    + (if DeckUnusual(r) then [Issue(Warn, i, UnusualDeckScope(DeckValue(r)))] else [])
  }

  /** Each check reports exactly when its condition holds, with its own
      severity and the offending value. */
  lemma RowIssuesExactly(i: nat, r: Row)
    ensures (exists k :: 0 <= k < |RowIssues(i, r)| && RowIssues(i, r)[k].kind.NoteOutOfRange?) <==> NoteNumberBad(r)
    ensures NoteNumberBad(r) ==> Issue(Error, i, NoteOutOfRange(r.midiNumber.value)) in RowIssues(i, r)
    ensures Issue(Warn, i, LedWithoutMidi) in RowIssues(i, r) <==> LedHalfSet(r)
    ensures Issue(Info, i, SetValueNotDirect) in RowIssues(i, r) <==> SetValueOutsideDirect(r)
    ensures (exists k :: 0 <= k < |RowIssues(i, r)| && RowIssues(i, r)[k].kind.UnusualDeckScope?) <==> DeckUnusual(r)
    ensures DeckUnusual(r) ==> Issue(Warn, i, UnusualDeckScope(DeckValue(r))) in RowIssues(i, r)
  {
    var out := RowIssues(i, r);
    if NoteNumberBad(r) {
      assert out[0].kind.NoteOutOfRange?;
    }
    if DeckUnusual(r) {
      assert out[|out| - 1].kind.UnusualDeckScope?;
    }
  }

  /** A row whose optional fields are all None raises nothing. */
  lemma BlankRowIsClean(i: nat, r: Row)
    requires AllOptionalUnset(r)
    ensures RowIssues(i, r) == []
  {
  }

  /** The raw deck scope the decoder keeps for the all-ones word is reported
      as unusual. */
  lemma AllOnesDeckIsUnusual(i: nat, r: Row)
    requires r.deckScope == Cast(MappingTargetDeckLookup, Some(0xFFFF_FFFF))
    ensures Issue(Warn, i, UnusualDeckScope(4294967295)) in RowIssues(i, r)
  {
    DeckScopeFromWord(0xFFFF_FFFF);
    RowIssuesExactly(i, r);
  }

  // ---------------------------------------------------------------------------
  // All rows

  /** Issue `a` comes strictly before issue `b`: an earlier row, or the same
      row and an earlier check. */
  predicate Before(a: Issue, b: Issue) {
    a.row < b.row || (a.row == b.row && Rank(a.kind) < Rank(b.kind))
  }

  /** `validate_rows`: the issues of every row, in row order. */
  function ValidateRows(rows: seq<Row>): (out: seq<Issue>)
    ensures |out| <= 4 * |rows|
    ensures forall k :: 0 <= k < |out| ==> out[k].row < |rows|
    ensures forall k, l :: 0 <= k < l < |out| ==> Before(out[k], out[l])
    ensures forall k :: 0 <= k < |out| ==> out[k] in RowIssues(out[k].row, rows[out[k].row])
  {
    if rows == [] then []
    else
      var n := |rows| - 1;
      var front := ValidateRows(rows[..n]);
      assert forall k :: 0 <= k < |front| ==> rows[..n][front[k].row] == rows[front[k].row];
      front + RowIssues(n, rows[n])
  }

  /** Every issue of every row is reported. */
  lemma {:induction false} ValidateRowsComplete(rows: seq<Row>, i: nat, issue: Issue)
    requires i < |rows| && issue in RowIssues(i, rows[i])
    ensures issue in ValidateRows(rows)
  {
    var n := |rows| - 1;
    if i < n {
      assert rows[..n][i] == rows[i];
      ValidateRowsComplete(rows[..n], i, issue);
    }
  }

  /** Rows that raise nothing contribute nothing: only rows with issues
      appear, and rows without optional fields never do. */
  lemma {:induction false} BlankRowsAreClean(rows: seq<Row>)
    requires forall i :: 0 <= i < |rows| ==> AllOptionalUnset(rows[i])
    ensures ValidateRows(rows) == []
  {
    if rows != [] {
      var n := |rows| - 1;
      BlankRowsAreClean(rows[..n]);
      BlankRowIsClean(n, rows[n]);
    }
  }
}
