/**
 * The script's `main` without its input and output: the rows of the table are
 * formatted one line each, and the lines are encoded with the default batch
 * size. Reading the table and saving the matrix are not part of this model.
 */
module Embed {
  import opened Wrappers
  import opened Formatter
  import opened Encoder

  /** The batch size `main` uses: `encode` is called with its default. */
  const DefaultBatchSize: nat := 100

  /** No formatted line is empty, so the encoder's filter keeps every one of them. */
  lemma {:induction false} FormattedLinesSurviveFilter(rows: seq<Record>)
    ensures Filter(FormatAll(rows)) == FormatAll(rows)
  {
    var lines := FormatAll(rows);
    forall i | 0 <= i < |lines| ensures lines[i] != [] {
      FormatRowNonEmpty(rows[i]);
    }
    FilterIdentityIff(lines);
  }

  /**
   * Formatting followed by encoding. An empty table raises when the chunk
   * results are concatenated; otherwise row `i` of the matrix is the vector of
   * the formatted line of row `i` of the table, one row per table row.
   */
  method EmbedTable<V>(f: string -> V, rows: seq<Record>) returns (r: Result<seq<V>, EncodeError>)
    ensures rows == [] ==> r == Failure(NothingToConcatenate)
    ensures rows != [] ==> r.Success? && |r.value| == |rows|
    ensures r.Success? ==> forall i :: 0 <= i < |rows| ==> r.value[i] == f(FormatRow(rows[i]))
  {
    var lines := FormatAll(rows);
    r := Encode(f, lines, DefaultBatchSize);
    FormattedLinesSurviveFilter(rows);
  }
}
