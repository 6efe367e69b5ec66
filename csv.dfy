/**
 * The CSV manifest as both programs see it through `encoding/csv`: a stream
 * of calls to `Read`, each giving a record's fields (already tokenised, with
 * leading space trimmed) or an error. The end of the stream is the reader's
 * end-of-file error.
 */
module Csv {

  /** The result of one `Read` call. */
  datatype ReadResult = Record(fields: seq<string>) | ReadError

  /**
   * A data row the reader hands back without error. The reader fixes the
   * expected field count from the header row and reports any record with a
   * different count as an error.
   */
  predicate Accepted(row: ReadResult, width: nat) {
    row.Record? && |row.fields| == width
  }

  /** How many data rows are read before the reader first reports an error. */
  function AcceptedCount(rows: seq<ReadResult>, width: nat): (n: nat)
    ensures n <= |rows|
    ensures forall i :: 0 <= i < n ==> Accepted(rows[i], width)
    ensures n < |rows| ==> !Accepted(rows[n], width)
  {
    if rows != [] && Accepted(rows[0], width) then 1 + AcceptedCount(rows[1..], width) else 0
  }

  /** The count of accepted rows is determined by "all before are accepted, the next is not". */
  lemma AcceptedCountIs(rows: seq<ReadResult>, width: nat, n: nat)
    requires n <= |rows|
    requires forall i :: 0 <= i < n ==> Accepted(rows[i], width)
    requires n < |rows| ==> !Accepted(rows[n], width)
    ensures AcceptedCount(rows, width) == n
  {
  }

  /** Whatever follows a rejected row is never read. */
  lemma AcceptedCountIgnoresTail(rows: seq<ReadResult>, more: seq<ReadResult>, width: nat)
    requires AcceptedCount(rows, width) < |rows|
    ensures AcceptedCount(rows + more, width) == AcceptedCount(rows, width)
  {
    var n := AcceptedCount(rows, width);
    assert forall i :: 0 <= i <= n ==> (rows + more)[i] == rows[i];
    AcceptedCountIs(rows + more, width, n);
  }

  /** The position of the first header equal to `name`, or -1. */
  function FirstIndex(headers: seq<string>, name: string): (k: int)
    ensures -1 <= k < |headers|
    ensures k == -1 <==> name !in headers
    ensures k >= 0 ==> headers[k] == name && forall j :: 0 <= j < k ==> headers[j] != name
  {
    if headers == [] then -1
    else if headers[0] == name then 0
    else
      var k := FirstIndex(headers[1..], name);
      assert forall j :: 1 <= j < |headers| ==> headers[j] == headers[1..][j - 1];
      if k < 0 then -1 else k + 1
  }

  /** The position of the last header equal to `name`, or -1. */
  function LastIndex(headers: seq<string>, name: string): (k: int)
    ensures -1 <= k < |headers|
    ensures k == -1 <==> name !in headers
    ensures k >= 0 ==> headers[k] == name && forall j :: k < j < |headers| ==> headers[j] != name
  {
    if headers == [] then -1
    else if headers[|headers| - 1] == name then |headers| - 1
    else
      var init := headers[..|headers| - 1];
      assert headers == init + [headers[|headers| - 1]];
      LastIndex(init, name)
  }

  /** In a header row without repeated names, a name's last position is its only position. */
  lemma LastIndexOfDistinct(headers: seq<string>, name: string, i: int)
    requires forall a, b :: 0 <= a < b < |headers| ==> headers[a] != headers[b]
    requires 0 <= i < |headers| && headers[i] == name
    ensures LastIndex(headers, name) == i
  {
  }
}
