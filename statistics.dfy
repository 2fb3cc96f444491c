/** The statistics of generate_basic_statistics without the database: nine
    (user, platform) combinations, each filtering the canonical messages and computing
    counts, character and word sums and three guarded averages. */
module Statistics {
  import opened Common

  /** The handles of one person on the two platforms. */
  datatype Handles = Handles(discord: string, instagram: string)

  /** The `users` mapping: users[user][platform]. */
  datatype Users = Users(user1: Handles, user2: Handles)

  datatype UserKey = User1 | User2

  /** users[user][platform]. */
  function HandleOf(users: Users, u: UserKey, p: Platform): string
  {
    var h := if u == User1 then users.user1 else users.user2;
    if p == Discord then h.discord else h.instagram
  }

  /** One combination; None stands for "both". */
  datatype Combination = Combination(user: Option<UserKey>, platform: Option<Platform>)

  /** The combinations, in the order the loop visits them. */
  const Combinations: seq<Combination> := [
    Combination(Some(User1), Some(Discord)), Combination(Some(User1), Some(Instagram)), Combination(Some(User1), None),
    Combination(Some(User2), Some(Discord)), Combination(Some(User2), Some(Instagram)), Combination(Some(User2), None),
    Combination(None, Some(Discord)), Combination(None, Some(Instagram)), Combination(None, None)
  ]

  /** The labels stored with each row, in the same order. */
  const RowLabels: seq<(string, string)> := [
    ("user1", "discord"), ("user1", "instagram"), ("user1", "both_platforms"),
    ("user2", "discord"), ("user2", "instagram"), ("user2", "both_platforms"),
    ("both_users", "discord"), ("both_users", "instagram"), ("both_users", "both_platforms")
  ]

  function UserLabel(u: Option<UserKey>): string
  {
    match u
    case Some(User1) => "user1"
    case Some(User2) => "user2"
    case None => "both_users"
  }

  function PlatformLabel(p: Option<Platform>): string
  {
    match p
    case Some(q) => PlatformName(q)
    case None => "both_platforms"
  }

  /** The comprehension's filter: (user is None or author == users[user][msg.platform])
      and (platform is None or msg.platform == platform). */
  predicate Selects(users: Users, c: Combination, m: Message)
  {
    (c.user.None? || m.author == HandleOf(users, c.user.value, m.platform)) &&
    (c.platform.None? || m.platform == c.platform.value)
  }

  /** The filtered messages, in their original order. */
  function Filtered(users: Users, data: seq<Message>, c: Combination): (r: seq<Message>)
    ensures |r| <= |data|
    ensures forall i :: 0 <= i < |r| ==> Selects(users, c, r[i]) && r[i] in data
  {
    if data == [] then []
    else if Selects(users, c, data[0]) then [data[0]] + Filtered(users, data[1..], c)
    else Filtered(users, data[1..], c)
  }

  // ---------------------------------------------------------------------------
  // Characters and words
  // ---------------------------------------------------------------------------

  /** The characters str.split() with no argument splits on (str.isspace). */
  predicate IsSpace(c: char)
  {
    var n := c as int;
    (0x09 <= n <= 0x0D) || (0x1C <= n <= 0x20) || n == 0x85 || n == 0xA0 || n == 0x1680 ||
    (0x2000 <= n <= 0x200A) || n == 0x2028 || n == 0x2029 || n == 0x202F || n == 0x205F || n == 0x3000
  }

  predicate Blank(s: string)
  {
    forall i :: 0 <= i < |s| ==> IsSpace(s[i])
  }

  /** Length of the leading run of non-space characters. */
  function WordLength(s: string): (n: nat)
    ensures n <= |s|
    ensures forall i :: 0 <= i < n ==> !IsSpace(s[i])
    ensures n == |s| || IsSpace(s[n])
  {
    if s == [] || IsSpace(s[0]) then 0 else 1 + WordLength(s[1..])
  }

  /** str.split(): the maximal runs of non-space characters, in order. */
  function Words(s: string): (ws: seq<string>)
    ensures forall k :: 0 <= k < |ws| ==> ws[k] != [] && forall i :: 0 <= i < |ws[k]| ==> !IsSpace(ws[k][i])
    ensures |ws| <= |s|
    decreases |s|
  {
    if s == [] then []
    else if IsSpace(s[0]) then Words(s[1..])
    else
      var n := WordLength(s);
      [s[..n]] + Words(s[n..])
  }

  /** sum(len(msg.content) for msg in msgs). */
  function CharCount(msgs: seq<Message>): nat
  {
    if msgs == [] then 0 else |msgs[0].content| + CharCount(msgs[1..])
  }

  /** sum(len(msg.content.split()) for msg in msgs). */
  function WordCount(msgs: seq<Message>): nat
  {
    if msgs == [] then 0 else |Words(msgs[0].content)| + WordCount(msgs[1..])
  }

  // ---------------------------------------------------------------------------
  // Rows
  // ---------------------------------------------------------------------------

  /** A guarded average: the literal 0 of the guard, or the float division
      numerator / denominator. */
  datatype Average = Zero | Quotient(numerator: nat, denominator: nat)

  function AverageValue(a: Average): real
  {
    match a
    case Zero => 0.0
    case Quotient(n, d) => if d == 0 then 0.0 else (n as real) / (d as real)
  }

  datatype StatsRow = StatsRow(userKey: string, platformKey: string,
                               messageCount: nat, characterCount: nat, wordCount: nat,
                               avgMessageLength: Average, avgWordLength: Average, avgWordsPerMessage: Average)

  /** The ZeroDivisionError of avg_word_length, which is guarded by message_count and
      not by word_count. */
  datatype StatsError = ZeroDivisionError(combination: Combination)

  /** A row's averages never divide by zero. */
  predicate GuardedAverages(row: StatsRow)
  {
    (row.avgMessageLength.Quotient? ==> row.avgMessageLength.denominator > 0) &&
    (row.avgWordLength.Quotient? ==> row.avgWordLength.denominator > 0) &&
    (row.avgWordsPerMessage.Quotient? ==> row.avgWordsPerMessage.denominator > 0)
  }

  /** One iteration of the loop: filter, count, average, label. */
  function RowFor(users: Users, data: seq<Message>, c: Combination): (r: Result<StatsRow, StatsError>)
    ensures r.Err? <==> |Filtered(users, data, c)| > 0 && WordCount(Filtered(users, data, c)) == 0
    ensures r.Err? ==> r.error == ZeroDivisionError(c)
    ensures r.Ok? ==> r.value.userKey == UserLabel(c.user) && r.value.platformKey == PlatformLabel(c.platform)
    ensures r.Ok? ==> GuardedAverages(r.value)
    ensures r.Ok? ==> (r.value.messageCount == 0 <==>
      r.value.avgMessageLength == r.value.avgWordLength == r.value.avgWordsPerMessage == Zero)
    ensures r.Ok? ==> var f := Filtered(users, data, c);
      r.value.messageCount == |f| && r.value.characterCount == CharCount(f) && r.value.wordCount == WordCount(f)
    ensures r.Ok? && r.value.messageCount > 0 ==>
      r.value.avgMessageLength == Quotient(r.value.characterCount, r.value.messageCount) &&
      r.value.avgWordLength == Quotient(r.value.characterCount, r.value.wordCount) &&
      r.value.avgWordsPerMessage == Quotient(r.value.wordCount, r.value.messageCount)
  {
    var filtered := Filtered(users, data, c);
    var messageCount := |filtered|;
    var charCount := CharCount(filtered);
    var wordCount := WordCount(filtered);
    if messageCount > 0 && wordCount == 0 then Err(ZeroDivisionError(c))
    else
      Ok(StatsRow(UserLabel(c.user), PlatformLabel(c.platform), messageCount, charCount, wordCount,
                  if messageCount > 0 then Quotient(charCount, messageCount) else Zero,
                  if messageCount > 0 then Quotient(charCount, wordCount) else Zero,
                  if messageCount > 0 then Quotient(wordCount, messageCount) else Zero))
  }

  /** Combination k is the first whose row raises. */
  predicate FirstFailing(users: Users, data: seq<Message>, k: nat)
  {
    k < |Combinations| && RowFor(users, data, Combinations[k]).Err? &&
    forall j :: 0 <= j < k ==> RowFor(users, data, Combinations[j]).Ok?
  }

  /** The nine rows the loop stores when no row raises: row k is the row of combination k. */
  predicate StoredRows(users: Users, data: seq<Message>, rows: seq<StatsRow>)
  {
    |rows| == |Combinations| &&
    forall k {:trigger RowFor(users, data, Combinations[k])} :: 0 <= k < |Combinations| ==> RowFor(users, data, Combinations[k]) == Ok(rows[k])
  }

  /** generate_basic_statistics without the INSERTs: the rows it would store, in order,
      or the error that stops the loop. */
  method GenerateBasicStatistics(users: Users, data: seq<Message>) returns (r: Result<seq<StatsRow>, StatsError>)
    ensures r.Ok? <==> forall k :: 0 <= k < |Combinations| ==> RowFor(users, data, Combinations[k]).Ok?
    ensures r.Ok? ==> StoredRows(users, data, r.value)
    ensures r.Ok? ==> forall k :: 0 <= k < 9 ==> (r.value[k].userKey, r.value[k].platformKey) == RowLabels[k]
    ensures forall k: nat :: FirstFailing(users, data, k) ==> r == Err(ZeroDivisionError(Combinations[k]))
  {
    var rows: seq<StatsRow> := [];
    for k := 0 to |Combinations|
      invariant |rows| == k
      invariant forall j :: 0 <= j < k ==> RowFor(users, data, Combinations[j]) == Ok(rows[j])
    {
      var row := RowFor(users, data, Combinations[k]);
      if row.Err? {
        assert FirstFailing(users, data, k);
        forall j: nat | FirstFailing(users, data, j) ensures j == k {
          FirstFailingUnique(users, data, j, k);
        }
        return Err(row.error);
      }
      rows := rows + [row.value];
    }
    assert forall k :: 0 <= k < 9 ==> (UserLabel(Combinations[k].user), PlatformLabel(Combinations[k].platform)) == RowLabels[k];
    return Ok(rows);
  }

  lemma FirstFailingUnique(users: Users, data: seq<Message>, j: nat, k: nat)
    requires FirstFailing(users, data, j) && FirstFailing(users, data, k)
    ensures j == k
  {
  }
}
