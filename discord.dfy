/** The Discord parser (process_discord_data): the CSV export given as its rows, the
    header skipped, every later row turned into a canonical tuple, the first bad row
    aborting the whole file. */
module Discord {
  import opened Common
  import opened DiscordTimestamp

  /** The two exceptions the loop catches. */
  datatype RowFailure = IndexError | ValueError

  /** The 400 responses: an absent or empty header, or the first bad row with its failure. */
  datatype DiscordError = MissingHeader | BadRow(row: seq<string>, failure: RowFailure)

  /** The body of the try block for one row: author = row[1], then
      parse_discord_timestamp(row[2]), then content = row[3]. */
  function ConvertRow(row: seq<string>): (r: Result<Message, RowFailure>)
    ensures r.Ok? <==> |row| >= 4 && ParseDiscordTimestamp(row[2]).Ok?
    ensures r.Ok? ==> r.value == Message(Discord, row[1], ParseDiscordTimestamp(row[2]).value, row[3])
  {
    if |row| < 2 then Err(IndexError)
    else
      var author := row[1];
      if |row| < 3 then Err(IndexError)
      else
        match ParseDiscordTimestamp(row[2])
        case Err(_) => Err(ValueError)
        case Ok(timestamp) =>
          if |row| < 4 then Err(IndexError)
          else Ok(Message(Discord, author, timestamp, row[3]))
  }

  /** Which exception a bad row raises follows Python's evaluation order: a row too short
      for the timestamp column is an IndexError, an unparseable timestamp a ValueError even
      when the content column is missing too, and only after that a missing content column. */
  lemma RowFailureOrder(row: seq<string>)
    ensures ConvertRow(row) == Err(ValueError) <==> |row| >= 3 && ParseDiscordTimestamp(row[2]).Err?
    ensures ConvertRow(row) == Err(IndexError) <==>
      |row| < 3 || (|row| == 3 && ParseDiscordTimestamp(row[2]).Ok?)
  {
  }

  /** `if not header`: no first row, or an empty one (what csv.reader yields for a blank line). */
  predicate HeaderMissing(rows: seq<seq<string>>)
  {
    rows == [] || rows[0] == []
  }

  /** Row k is the first data row that fails. */
  predicate FirstBadRow(rows: seq<seq<string>>, k: nat)
  {
    1 <= k < |rows| && ConvertRow(rows[k]).Err? &&
    forall j :: 1 <= j < k ==> ConvertRow(rows[j]).Ok?
  }

  /** At most one row is the first bad one. */
  lemma FirstBadRowUnique(rows: seq<seq<string>>, k: nat, k': nat)
    requires FirstBadRow(rows, k) && FirstBadRow(rows, k')
    ensures k == k'
  {
  }

  /** Some data row fails, so some row is the first to fail. */
  lemma {:induction false} FirstBadRowExists(rows: seq<seq<string>>, n: nat)
    requires 1 <= n < |rows| && ConvertRow(rows[n]).Err?
    ensures exists k: nat :: k <= n && FirstBadRow(rows, k)
  {
    if forall j :: 1 <= j < n ==> ConvertRow(rows[j]).Ok? {
      assert FirstBadRow(rows, n);
    } else {
      var j :| 1 <= j < n && ConvertRow(rows[j]).Err?;
      FirstBadRowExists(rows, j);
    }
  }

  method ProcessDiscordData(rows: seq<seq<string>>) returns (r: Result<seq<Message>, DiscordError>)
    ensures HeaderMissing(rows) ==> r == Err(MissingHeader)
    ensures r.Ok? <==> !HeaderMissing(rows) && forall i :: 1 <= i < |rows| ==> ConvertRow(rows[i]).Ok?
    ensures r.Ok? ==> |r.value| == |rows| - 1
    ensures r.Ok? ==> forall i :: 0 <= i < |r.value| ==> ConvertRow(rows[i + 1]) == Ok(r.value[i])
    ensures forall k: nat :: !HeaderMissing(rows) && FirstBadRow(rows, k) ==>
      r == Err(BadRow(rows[k], ConvertRow(rows[k]).error))
    ensures r.Err? && r.error.BadRow? ==> exists k: nat :: FirstBadRow(rows, k) && r.error.row == rows[k]
  {
    if HeaderMissing(rows) {
      return Err(MissingHeader);
    }
    var discordData: seq<Message> := [];
    var i := 1;
    while i < |rows|
      invariant 1 <= i <= |rows|
      invariant |discordData| == i - 1
      invariant forall j :: 1 <= j < i ==> ConvertRow(rows[j]) == Ok(discordData[j - 1])
    {
      var row := rows[i];
      var converted := ConvertRow(row);
      if converted.Err? {
        assert FirstBadRow(rows, i);
        forall k: nat | FirstBadRow(rows, k) ensures k == i {
          FirstBadRowUnique(rows, k, i);
        }
        return Err(BadRow(row, converted.error));
      }
      ghost var before := discordData;
      discordData := discordData + [converted.value];
      assert forall j :: 0 <= j < i - 1 ==> discordData[j] == before[j];
      assert ConvertRow(rows[i]) == Ok(discordData[i - 1]);
      i := i + 1;
    }
    return Ok(discordData);
  }
}
