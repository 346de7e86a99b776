/** The log as a later query returns it. */
module StoredLogs {
  import opened Basics
  import opened Checkpoints
  import opened CheckpointPrefixes
  import opened RunStore

  /** The table holds what the constructors made for these outcomes, numbered
      from one. */
  ghost predicate Holds(stored: seq<Checkpoint>, rows: seq<Row>) {
    |stored| == |rows| &&
    forall i | 0 <= i < |rows| ::
      WellFormed(rows[i]) && Seal(rows[i]).Some? && stored[i] == Checkpoint(i + 1, Seal(rows[i]).value)
  }

  /** What the query gives for the table: each row through the column. */
  ghost predicate ScannedFrom(shown: string -> string, scanned: seq<Checkpoint>, stored: seq<Checkpoint>) {
    |scanned| == |stored| &&
    forall i | 0 <= i < |stored| ::
      scanned[i].sequenceNo == stored[i].sequenceNo && Scan(shown, stored[i].pending) == Some(scanned[i].pending)
  }

  lemma ScannedRow(shown: string -> string, scanned: seq<Checkpoint>, stored: seq<Checkpoint>, rows: seq<Row>, i: nat)
    requires Holds(stored, rows) && ScannedFrom(shown, scanned, stored) && i < |rows|
    ensures Decode(scanned[i].pending) == (if RowAsShown(shown, rows[i]) then Some(rows[i]) else None)
    ensures scanned[i].sequenceNo == i + 1 && scanned[i].pending.identity == Key(rows[i])
    ensures RowAsShown(shown, rows[i]) ==> Seal(rows[i]) == Some(scanned[i].pending)
  {
    hide Decode, Scan, RowAsShown, Seal, WellFormed;
    ReadBackExactlyWhenNumbersAsShown(shown, rows[i]);
    ScanRebuilds(shown, rows[i]);
    KeysAreGenuine(rows[i]);
    DecodeExactlySealed(scanned[i].pending, rows[i]);
  }

  lemma ReadableExactlyWhenShown(
    shown: string -> string, scanned: seq<Checkpoint>, stored: seq<Checkpoint>, rows: seq<Row>)
    requires Holds(stored, rows) && ScannedFrom(shown, scanned, stored)
    ensures Readable(scanned) <==> AllAsShown(shown, rows)
    ensures Readable(scanned) ==> Outcomes(scanned) == rows
  {
    hide Decode, RowAsShown, Seal, Scan;
    forall i | 0 <= i < |rows|
      ensures scanned[i].sequenceNo == i + 1
      ensures Decode(scanned[i].pending) == (if RowAsShown(shown, rows[i]) then Some(rows[i]) else None)
    {
      ScannedRow(shown, scanned, stored, rows, i);
    }
    if Readable(scanned) {
      assert forall i | 0 <= i < |rows| :: Decode(scanned[i].pending).Some?;
    }
  }

  /** Loading the stored log gives the decoded outcomes, or fails because a number
      was rewritten. */
  lemma LoadingTheTable(shown: string -> string, scanned: seq<Checkpoint>, stored: seq<Checkpoint>, rows: seq<Row>)
    requires Holds(stored, rows) && ScannedFrom(shown, scanned, stored)
    ensures LoadStored(scanned) == ReadLog(shown, rows)
  {
    hide Load, AllAsShown, Decode;
    ReadableExactlyWhenShown(shown, scanned, stored, rows);
  }

  lemma LoadingOneMore(
    shown: string -> string, scanned: seq<Checkpoint>, stored: seq<Checkpoint>, rows: seq<Row>, row: Row)
    requires Holds(stored, rows) && ScannedFrom(shown, scanned, stored) && AllAsShown(shown, rows)
    requires WellFormed(row) && Seal(row).Some?
    ensures LoadStored(scanned + [Checkpoint(|scanned| + 1, Seal(row).value)]) == Load(rows + [row])
  {
    hide Load, Decode, Seal;
    var c := Checkpoint(|scanned| + 1, Seal(row).value);
    var all := scanned + [c];
    ReadableExactlyWhenShown(shown, scanned, stored, rows);
    DecodeExactlySealed(c.pending, row);
    assert forall i | 0 <= i < |scanned| :: all[i] == scanned[i];
    assert Readable(all);
    assert Outcomes(all) == rows + [row];
  }

  /** Comparing a row read back with the checkpoint to append. */
  lemma MatchesExactly(shown: string -> string, existing: Row, row: Row, c: Pending)
    requires WellFormed(existing) && WellFormed(row) && Seal(existing).Some? && Seal(row).Some?
    requires Scan(shown, Seal(existing).value) == Some(c)
    ensures CheckpointMatches(c, Seal(row).value) <==> existing == row && RowAsShown(shown, row)
    ensures c.identity == Key(existing)
  {
    hide Scan, RowAsShown, Seal, WellFormed, Decode;
    ReadBackExactlyWhenNumbersAsShown(shown, existing);
    ScanRebuilds(shown, existing);
    KeysAreGenuine(existing);
    DecodeExactlySealed(c, row);
    DecodeExactlySealed(c, existing);
    if CheckpointMatches(c, Seal(row).value) {
      assert c == Seal(row).value;
    }
  }
}
