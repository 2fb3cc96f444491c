/** What the nine rows of generate_basic_statistics say about each other: the
    platform marginals, the user marginals and when they hold, where unmatched and
    shared names land, and exactly when the loop raises. */
module StatisticsProperties {
  import opened Common
  import opened Statistics

  // ---------------------------------------------------------------------------
  // The filter
  // ---------------------------------------------------------------------------

  /** The counts of one message followed by others. */
  lemma ConsCounts(x: Message, rest: seq<Message>)
    ensures |[x] + rest| == 1 + |rest|
    ensures CharCount([x] + rest) == |x.content| + CharCount(rest)
    ensures WordCount([x] + rest) == |Words(x.content)| + WordCount(rest)
  {
    assert ([x] + rest)[1..] == rest;
  }

  /** Filtering a concatenation filters each part in turn: the order of the data is kept. */
  lemma {:induction false} FilteredAppend(users: Users, a: seq<Message>, b: seq<Message>, c: Combination)
    ensures Filtered(users, a + b, c) == Filtered(users, a, c) + Filtered(users, b, c)
  {
    if a == [] {
      assert a + b == b;
    } else {
      assert (a + b)[0] == a[0] && (a + b)[1..] == a[1..] + b;
      FilteredAppend(users, a[1..], b, c);
    }
  }

  /** Every selected message of the data is in the filtered list. */
  lemma {:induction false} FilteredComplete(users: Users, data: seq<Message>, c: Combination, i: nat)
    requires i < |data| && Selects(users, c, data[i])
    ensures data[i] in Filtered(users, data, c)
  {
    if i > 0 {
      FilteredComplete(users, data[1..], c, i - 1);
    }
  }

  /** A combination selects a message only if the combinations that widen its user or its
      platform to "both" select it too; (both_users, both_platforms) selects everything. */
  lemma SelectsWidened(users: Users, c: Combination, m: Message)
    ensures Selects(users, Combination(None, None), m)
    ensures Selects(users, c, m) ==>
      Selects(users, Combination(c.user, None), m) && Selects(users, Combination(None, c.platform), m)
  {
  }

  /** The (both_users, both_platforms) row sees every message. */
  lemma {:induction false} BothBothSeesAll(users: Users, data: seq<Message>)
    ensures Filtered(users, data, Combination(None, None)) == data
  {
    if data != [] {
      BothBothSeesAll(users, data[1..]);
    }
  }

  // ---------------------------------------------------------------------------
  // Platform marginals
  // ---------------------------------------------------------------------------

  /** For a fixed user key, the discord and instagram rows add up to the both_platforms row,
      for the message, character and word counts. */
  lemma {:induction false} PlatformMarginal(users: Users, data: seq<Message>, u: Option<UserKey>)
    ensures var d, i, b := Filtered(users, data, Combination(u, Some(Discord))),
                          Filtered(users, data, Combination(u, Some(Instagram))),
                          Filtered(users, data, Combination(u, None));
      |d| + |i| == |b| && CharCount(d) + CharCount(i) == CharCount(b) && WordCount(d) + WordCount(i) == WordCount(b)
  {
    if data != [] {
      PlatformMarginal(users, data[1..], u);
      var rd := Filtered(users, data[1..], Combination(u, Some(Discord)));
      var ri := Filtered(users, data[1..], Combination(u, Some(Instagram)));
      var rb := Filtered(users, data[1..], Combination(u, None));
      var x := data[0];
      if !Selects(users, Combination(u, None), x) {
        assert !Selects(users, Combination(u, Some(Discord)), x) && !Selects(users, Combination(u, Some(Instagram)), x);
      } else if x.platform == Discord {
        assert !Selects(users, Combination(u, Some(Instagram)), x);
        ConsCounts(x, rd);
        ConsCounts(x, rb);
      } else {
        assert !Selects(users, Combination(u, Some(Discord)), x);
        ConsCounts(x, ri);
        ConsCounts(x, rb);
      }
    }
  }

  // ---------------------------------------------------------------------------
  // User marginals
  // ---------------------------------------------------------------------------

  /** How many of the two mapped names a message's author equals on its platform (0, 1 or 2). */
  function Matches(users: Users, m: Message): (n: nat)
    ensures n <= 2
  {
    (if m.author == HandleOf(users, User1, m.platform) then 1 else 0) +
    (if m.author == HandleOf(users, User2, m.platform) then 1 else 0)
  }

  function AttributionTotal(users: Users, msgs: seq<Message>): nat
  {
    if msgs == [] then 0 else Matches(users, msgs[0]) + AttributionTotal(users, msgs[1..])
  }

  /** In general the user1 and user2 rows count each message of the both_users row once
      per mapped name its author equals. */
  lemma {:induction false} UserCountsAttribution(users: Users, data: seq<Message>, p: Option<Platform>)
    ensures |Filtered(users, data, Combination(Some(User1), p))| + |Filtered(users, data, Combination(Some(User2), p))|
            == AttributionTotal(users, Filtered(users, data, Combination(None, p)))
  {
    if data != [] {
      UserCountsAttribution(users, data[1..], p);
      var rb := Filtered(users, data[1..], Combination(None, p));
      assert ([data[0]] + rb)[1..] == rb;
    }
  }

  /** When every author matches exactly one mapped name, the user1 and user2 rows add up to
      the both_users row, for the message, character and word counts. */
  lemma {:induction false} UserMarginal(users: Users, data: seq<Message>, p: Option<Platform>)
    requires forall i :: 0 <= i < |data| ==> Matches(users, data[i]) == 1
    ensures var f1, f2, b := Filtered(users, data, Combination(Some(User1), p)),
                             Filtered(users, data, Combination(Some(User2), p)),
                             Filtered(users, data, Combination(None, p));
      |f1| + |f2| == |b| && CharCount(f1) + CharCount(f2) == CharCount(b) && WordCount(f1) + WordCount(f2) == WordCount(b)
  {
    if data != [] {
      var x := data[0];
      assert Matches(users, x) == 1;
      UserMarginal(users, data[1..], p);
      var r1 := Filtered(users, data[1..], Combination(Some(User1), p));
      var r2 := Filtered(users, data[1..], Combination(Some(User2), p));
      var rb := Filtered(users, data[1..], Combination(None, p));
      if !Selects(users, Combination(None, p), x) {
        assert !Selects(users, Combination(Some(User1), p), x) && !Selects(users, Combination(Some(User2), p), x);
      } else if x.author == HandleOf(users, User1, x.platform) {
        assert !Selects(users, Combination(Some(User2), p), x);
        ConsCounts(x, r1);
        ConsCounts(x, rb);
      } else {
        assert !Selects(users, Combination(Some(User1), p), x);
        ConsCounts(x, r2);
        ConsCounts(x, rb);
      }
    }
  }

  lemma {:induction false} AttributionTotalAtMostCount(users: Users, msgs: seq<Message>)
    requires forall i :: 0 <= i < |msgs| ==> Matches(users, msgs[i]) <= 1
    ensures AttributionTotal(users, msgs) <= |msgs|
    ensures AttributionTotal(users, msgs) == |msgs| <==> forall i :: 0 <= i < |msgs| ==> Matches(users, msgs[i]) == 1
  {
    if msgs != [] {
      AttributionTotalAtMostCount(users, msgs[1..]);
      assert forall i :: 1 <= i < |msgs| ==> msgs[i] == msgs[1..][i - 1];
    }
  }

  /** When the two users have different names on both platforms, the user1 and user2 message
      counts add up to the both_users count exactly when every message of that row has an
      author matching one of the names. */
  lemma UserMarginalExactlyWhen(users: Users, data: seq<Message>, p: Option<Platform>)
    requires users.user1.discord != users.user2.discord && users.user1.instagram != users.user2.instagram
    ensures var b := Filtered(users, data, Combination(None, p));
      |Filtered(users, data, Combination(Some(User1), p))| + |Filtered(users, data, Combination(Some(User2), p))| == |b|
      <==> forall i :: 0 <= i < |b| ==> Matches(users, b[i]) == 1
  {
    UserCountsAttribution(users, data, p);
    AttributionTotalAtMostCount(users, Filtered(users, data, Combination(None, p)));
  }

  /** A message whose author matches neither mapped name appears only in the both_users rows. */
  lemma UnmatchedOnlyInBothUsers(users: Users, data: seq<Message>, i: nat)
    requires i < |data| && Matches(users, data[i]) == 0
    ensures forall p :: data[i] !in Filtered(users, data, Combination(Some(User1), p))
    ensures forall p :: data[i] !in Filtered(users, data, Combination(Some(User2), p))
    ensures data[i] in Filtered(users, data, Combination(None, None))
    ensures data[i] in Filtered(users, data, Combination(None, Some(data[i].platform)))
  {
    FilteredComplete(users, data, Combination(None, None), i);
    FilteredComplete(users, data, Combination(None, Some(data[i].platform)), i);
  }

  /** Two users with the same name on a platform both get every message under it. */
  lemma {:induction false} SharedNameCountsForBoth(users: Users, data: seq<Message>, p: Platform)
    requires HandleOf(users, User1, p) == HandleOf(users, User2, p)
    ensures Filtered(users, data, Combination(Some(User1), Some(p))) == Filtered(users, data, Combination(Some(User2), Some(p)))
  {
    if data != [] {
      SharedNameCountsForBoth(users, data[1..], p);
    }
  }

  // ---------------------------------------------------------------------------
  // Words and the division by word_count
  // ---------------------------------------------------------------------------

  /** str.split() yields no words exactly for a text made only of whitespace. */
  lemma {:induction false} WordsEmptyIffBlank(s: string)
    ensures Words(s) == [] <==> Blank(s)
    decreases |s|
  {
    if s != [] {
      if IsSpace(s[0]) {
        WordsEmptyIffBlank(s[1..]);
        assert forall i :: 1 <= i < |s| ==> s[i] == s[1..][i - 1];
      } else {
        assert !Blank(s);
      }
    }
  }

  // ---------------------------------------------------------------------------
  // str.split() as a layout of the text
  // ---------------------------------------------------------------------------

  /** A word: non-empty and without whitespace. */
  predicate Solid(w: string)
  {
    w != [] && forall i :: 0 <= i < |w| ==> !IsSpace(w[i])
  }

  /** Whitespace runs and words laid out alternately: gaps[0] + ws[0] + gaps[1] + ... + ws[n-1] + gaps[n]. */
  function Interleave(gaps: seq<string>, ws: seq<string>): string
    requires |gaps| == |ws| + 1
    decreases |ws|
  {
    if ws == [] then gaps[0] else gaps[0] + ws[0] + Interleave(gaps[1..], ws[1..])
  }

  /** s is the words ws separated by the whitespace runs gaps: every gap is whitespace, every
      word is solid, and only the leading and trailing gaps may be empty. */
  predicate SplitsInto(s: string, gaps: seq<string>, ws: seq<string>)
  {
    |gaps| == |ws| + 1 &&
    (forall k :: 0 <= k < |gaps| ==> Blank(gaps[k])) &&
    (forall k :: 0 < k < |ws| ==> gaps[k] != []) &&
    (forall k :: 0 <= k < |ws| ==> Solid(ws[k])) &&
    s == Interleave(gaps, ws)
  }

  /** Leading whitespace yields no words. */
  lemma {:induction false} WordsAfterBlank(b: string, t: string)
    requires Blank(b)
    ensures Words(b + t) == Words(t)
    decreases |b|
  {
    if b == [] {
      assert b + t == t;
    } else {
      assert IsSpace((b + t)[0]) by { assert (b + t)[0] == b[0]; }
      assert (b + t)[1..] == b[1..] + t;
      assert Blank(b[1..]) by { assert forall i :: 0 <= i < |b[1..]| ==> b[1..][i] == b[i + 1]; }
      WordsAfterBlank(b[1..], t);
    }
  }

  /** A solid word followed by the end of the text or by whitespace is the next word. */
  lemma WordsAfterWord(w: string, t: string)
    requires Solid(w) && (t == [] || IsSpace(t[0]))
    ensures Words(w + t) == [w] + Words(t)
  {
    var s := w + t;
    var n := WordLength(s);
    assert forall i :: 0 <= i < |w| ==> s[i] == w[i];
    if t != [] {
      assert s[|w|] == t[0];
    }
    assert n == |w|;
    assert s[..n] == w && s[n..] == t;
  }

  /** Dropping the leading gap and the first word leaves a layout of the rest. */
  lemma LayoutTail(s: string, gaps: seq<string>, ws: seq<string>)
    requires SplitsInto(s, gaps, ws) && ws != []
    ensures SplitsInto(Interleave(gaps[1..], ws[1..]), gaps[1..], ws[1..])
  {
    assert forall k :: 0 <= k < |ws| - 1 ==> ws[1..][k] == ws[k + 1];
    assert forall k :: 0 <= k < |gaps| - 1 ==> gaps[1..][k] == gaps[k + 1];
  }

  /** After the first word a layout goes on with whitespace or ends. */
  lemma LayoutRestStart(s: string, gaps: seq<string>, ws: seq<string>)
    requires SplitsInto(s, gaps, ws) && ws != []
    ensures var rest := Interleave(gaps[1..], ws[1..]); rest == [] || IsSpace(rest[0])
  {
    var rest := Interleave(gaps[1..], ws[1..]);
    if |ws| > 1 {
      assert rest == gaps[1] + (ws[1] + Interleave(gaps[2..], ws[2..])) by { assert gaps[1..][1..] == gaps[2..]; }
      assert rest[0] == gaps[1][0];
    } else {
      assert rest == gaps[1];
    }
  }

  /** Only the words str.split() yields lay the text out: any layout of s has exactly Words(s). */
  lemma {:induction false} SplitDeterminesWords(s: string, gaps: seq<string>, ws: seq<string>)
    requires SplitsInto(s, gaps, ws)
    ensures ws == Words(s)
    decreases |ws|
  {
    if ws == [] {
      WordsEmptyIffBlank(s);
    } else {
      var rest := Interleave(gaps[1..], ws[1..]);
      LayoutTail(s, gaps, ws);
      LayoutRestStart(s, gaps, ws);
      assert s == gaps[0] + (ws[0] + rest);
      WordsAfterBlank(gaps[0], ws[0] + rest);
      WordsAfterWord(ws[0], rest);
      SplitDeterminesWords(rest, gaps[1..], ws[1..]);
    }
  }

  /** Prepending to the leading gap prepends to the text. */
  lemma InterleaveHead(x: string, gaps: seq<string>, ws: seq<string>)
    requires |gaps| == |ws| + 1
    ensures Interleave([x + gaps[0]] + gaps[1..], ws) == x + Interleave(gaps, ws)
  {
    var g := [x + gaps[0]] + gaps[1..];
    assert g[1..] == gaps[1..];
  }

  /** With an empty leading gap the text starts with the first word's first character. */
  lemma WordFirst(gaps: seq<string>, ws: seq<string>)
    requires |gaps| == |ws| + 1 && ws != [] && Solid(ws[0])
    ensures gaps[0] == [] ==> Interleave(gaps, ws) != [] && !IsSpace(Interleave(gaps, ws)[0])
  {
    if gaps[0] == [] {
      assert Interleave(gaps, ws) == ws[0] + Interleave(gaps[1..], ws[1..]);
    }
  }

  /** A whitespace character in front of a layout joins its leading gap. */
  lemma LayoutAfterSpace(x: char, t: string, g: seq<string>, ws: seq<string>)
    requires IsSpace(x) && SplitsInto(t, g, ws)
    ensures SplitsInto([x] + t, [[x] + g[0]] + g[1..], ws)
  {
    var gaps := [[x] + g[0]] + g[1..];
    InterleaveHead([x], g, ws);
    assert Blank(gaps[0]) by { assert forall i :: 1 <= i < |gaps[0]| ==> gaps[0][i] == g[0][i - 1]; }
    assert forall k :: 0 < k < |gaps| ==> gaps[k] == g[k];
  }

  /** A solid word in front of a layout that is empty or starts with whitespace becomes its
      first word, behind an empty gap. */
  lemma LayoutAfterWord(w: string, t: string, g: seq<string>, ws: seq<string>)
    requires Solid(w) && (t == [] || IsSpace(t[0])) && SplitsInto(t, g, ws)
    ensures SplitsInto(w + t, [[]] + g, [w] + ws)
  {
    var gaps := [[]] + g;
    assert gaps[1..] == g && ([w] + ws)[1..] == ws;
    assert Interleave(gaps, [w] + ws) == [] + w + Interleave(g, ws);
    if ws != [] {
      WordFirst(g, ws);
    }
    assert forall k :: 0 < k < |gaps| ==> gaps[k] == g[k - 1];
  }

  /** The words str.split() yields do lay the text out, with the whitespace runs between them. */
  lemma {:induction false} WordsSplit(s: string) returns (gaps: seq<string>)
    ensures SplitsInto(s, gaps, Words(s))
    decreases |s|
  {
    if s == [] {
      gaps := [[]];
    } else if IsSpace(s[0]) {
      var g := WordsSplit(s[1..]);
      LayoutAfterSpace(s[0], s[1..], g, Words(s[1..]));
      assert s == [s[0]] + s[1..];
      gaps := [[s[0]] + g[0]] + g[1..];
    } else {
      var n := WordLength(s);
      var g := WordsSplit(s[n..]);
      LayoutAfterWord(s[..n], s[n..], g, Words(s[n..]));
      assert s == s[..n] + s[n..];
      gaps := [[]] + g;
    }
  }

  /** The character sum is zero exactly when every message is empty. */
  lemma {:induction false} CharCountZeroIffAllEmpty(msgs: seq<Message>)
    ensures CharCount(msgs) == 0 <==> forall i :: 0 <= i < |msgs| ==> msgs[i].content == []
  {
    if msgs != [] {
      CharCountZeroIffAllEmpty(msgs[1..]);
      assert forall i :: 1 <= i < |msgs| ==> msgs[i] == msgs[1..][i - 1];
    }
  }

  /** Every word has a character, so the word sum is at most the character sum. */
  lemma {:induction false} WordCountAtMostCharCount(msgs: seq<Message>)
    ensures WordCount(msgs) <= CharCount(msgs)
  {
    if msgs != [] {
      WordCountAtMostCharCount(msgs[1..]);
    }
  }

  /** The word count is zero exactly when every message is blank. */
  lemma {:induction false} WordCountZeroIffAllBlank(msgs: seq<Message>)
    ensures WordCount(msgs) == 0 <==> forall i :: 0 <= i < |msgs| ==> Blank(msgs[i].content)
  {
    if msgs != [] {
      WordsEmptyIffBlank(msgs[0].content);
      WordCountZeroIffAllBlank(msgs[1..]);
      assert forall i :: 1 <= i < |msgs| ==> msgs[i] == msgs[1..][i - 1];
    }
  }

  /** A row raises exactly when it selects at least one message and every one it selects
      is blank: message_count guards avg_word_length, word_count does not. */
  lemma RowFailsIffAllBlank(users: Users, data: seq<Message>, c: Combination)
    ensures var f := Filtered(users, data, c);
      RowFor(users, data, c).Err? <==> |f| > 0 && forall i :: 0 <= i < |f| ==> Blank(f[i].content)
  {
    WordCountZeroIffAllBlank(Filtered(users, data, c));
  }

  /** Without blank messages every one of the nine rows is computed. */
  lemma NoBlankMessagesNoError(users: Users, data: seq<Message>)
    requires forall i :: 0 <= i < |data| ==> !Blank(data[i].content)
    ensures forall k :: 0 <= k < |Combinations| ==> RowFor(users, data, Combinations[k]).Ok?
  {
    forall k | 0 <= k < |Combinations| ensures RowFor(users, data, Combinations[k]).Ok? {
      var f := Filtered(users, data, Combinations[k]);
      RowFailsIffAllBlank(users, data, Combinations[k]);
      if |f| > 0 {
        assert f[0] in data;
      }
    }
  }

  /** Some row raises, so some row is the first to raise. */
  lemma {:induction false} FirstFailingExists(users: Users, data: seq<Message>, n: nat)
    requires n < |Combinations| && RowFor(users, data, Combinations[n]).Err?
    ensures exists k: nat :: k <= n && FirstFailing(users, data, k)
  {
    if forall j :: 0 <= j < n ==> RowFor(users, data, Combinations[j]).Ok? {
      assert FirstFailing(users, data, n);
    } else {
      var j :| 0 <= j < n && RowFor(users, data, Combinations[j]).Err?;
      FirstFailingExists(users, data, j);
    }
  }

  /** Non-empty data made only of blank messages makes the loop raise: at the latest the
      (both_users, both_platforms) row divides by a zero word count. */
  lemma AllBlankDataFails(users: Users, data: seq<Message>)
    requires data != [] && forall i :: 0 <= i < |data| ==> Blank(data[i].content)
    ensures RowFor(users, data, Combination(None, None)).Err?
    ensures exists k: nat :: FirstFailing(users, data, k)
  {
    BothBothSeesAll(users, data);
    RowFailsIffAllBlank(users, data, Combination(None, None));
    assert Combinations[8] == Combination(None, None);
    FirstFailingExists(users, data, 8);
  }

  // ---------------------------------------------------------------------------
  // The stored rows
  // ---------------------------------------------------------------------------

  /** The message, character and word counts of rows a and b add up to those of row total. */
  predicate CountsAddUp(a: StatsRow, b: StatsRow, total: StatsRow)
  {
    a.messageCount + b.messageCount == total.messageCount &&
    a.characterCount + b.characterCount == total.characterCount &&
    a.wordCount + b.wordCount == total.wordCount
  }

  /** The discord, instagram and both_platforms rows of one user key add up. */
  lemma PlatformTriple(users: Users, data: seq<Message>, u: Option<UserKey>, d: StatsRow, i: StatsRow, b: StatsRow)
    requires RowFor(users, data, Combination(u, Some(Discord))) == Ok(d)
    requires RowFor(users, data, Combination(u, Some(Instagram))) == Ok(i)
    requires RowFor(users, data, Combination(u, None)) == Ok(b)
    ensures CountsAddUp(d, i, b)
  {
    PlatformMarginal(users, data, u);
  }

  /** The user1, user2 and both_users rows of one platform column add up when every author
      matches exactly one mapped name. */
  lemma UserTriple(users: Users, data: seq<Message>, p: Option<Platform>, r1: StatsRow, r2: StatsRow, b: StatsRow)
    requires forall i :: 0 <= i < |data| ==> Matches(users, data[i]) == 1
    requires RowFor(users, data, Combination(Some(User1), p)) == Ok(r1)
    requires RowFor(users, data, Combination(Some(User2), p)) == Ok(r2)
    requires RowFor(users, data, Combination(None, p)) == Ok(b)
    ensures CountsAddUp(r1, r2, b)
  {
    UserMarginal(users, data, p);
  }

  /** Stored row k is the row of combination k. */
  lemma StoredRowIs(users: Users, data: seq<Message>, rows: seq<StatsRow>, k: nat, c: Combination)
    requires StoredRows(users, data, rows) && k < |Combinations| && Combinations[k] == c
    ensures RowFor(users, data, c) == Ok(rows[k])
  {
    assert RowFor(users, data, Combinations[k]) == Ok(rows[k]);
  }

  /** Stored rows i, i+1 and i+2, when they are one user key's discord, instagram and
      both_platforms rows, add up. */
  lemma StoredPlatformTriple(users: Users, data: seq<Message>, rows: seq<StatsRow>, i: nat, u: Option<UserKey>)
    requires StoredRows(users, data, rows) && i + 2 < |Combinations|
    requires Combinations[i] == Combination(u, Some(Discord)) && Combinations[i + 1] == Combination(u, Some(Instagram)) &&
             Combinations[i + 2] == Combination(u, None)
    ensures CountsAddUp(rows[i], rows[i + 1], rows[i + 2])
  {
    StoredRowIs(users, data, rows, i, Combination(u, Some(Discord)));
    StoredRowIs(users, data, rows, i + 1, Combination(u, Some(Instagram)));
    StoredRowIs(users, data, rows, i + 2, Combination(u, None));
    PlatformTriple(users, data, u, rows[i], rows[i + 1], rows[i + 2]);
  }

  /** Stored rows i, i+3 and i+6, when they are one platform column's user1, user2 and
      both_users rows, add up when every author matches exactly one mapped name. */
  lemma StoredUserTriple(users: Users, data: seq<Message>, rows: seq<StatsRow>, i: nat, p: Option<Platform>)
    requires StoredRows(users, data, rows) && i + 6 < |Combinations|
    requires forall j :: 0 <= j < |data| ==> Matches(users, data[j]) == 1
    requires Combinations[i] == Combination(Some(User1), p) && Combinations[i + 3] == Combination(Some(User2), p) &&
             Combinations[i + 6] == Combination(None, p)
    ensures CountsAddUp(rows[i], rows[i + 3], rows[i + 6])
  {
    StoredRowIs(users, data, rows, i, Combination(Some(User1), p));
    StoredRowIs(users, data, rows, i + 3, Combination(Some(User2), p));
    StoredRowIs(users, data, rows, i + 6, Combination(None, p));
    UserTriple(users, data, p, rows[i], rows[i + 3], rows[i + 6]);
  }

  /** In the nine stored rows, each user's discord and instagram rows add up to that
      user's both_platforms row. */
  lemma StoredPlatformMarginals(users: Users, data: seq<Message>, rows: seq<StatsRow>)
    requires StoredRows(users, data, rows)
    ensures CountsAddUp(rows[0], rows[1], rows[2])
    ensures CountsAddUp(rows[3], rows[4], rows[5])
    ensures CountsAddUp(rows[6], rows[7], rows[8])
  {
    StoredPlatformTriple(users, data, rows, 0, Some(User1));
    StoredPlatformTriple(users, data, rows, 3, Some(User2));
    StoredPlatformTriple(users, data, rows, 6, None);
  }

  /** In the nine stored rows, when every author matches exactly one mapped name, the user1
      and user2 rows of each platform column add up to the both_users row. */
  lemma StoredUserMarginals(users: Users, data: seq<Message>, rows: seq<StatsRow>)
    requires StoredRows(users, data, rows)
    requires forall i :: 0 <= i < |data| ==> Matches(users, data[i]) == 1
    ensures CountsAddUp(rows[0], rows[3], rows[6])
    ensures CountsAddUp(rows[1], rows[4], rows[7])
    ensures CountsAddUp(rows[2], rows[5], rows[8])
  {
    StoredUserTriple(users, data, rows, 0, Some(Discord));
    StoredUserTriple(users, data, rows, 1, Some(Instagram));
    StoredUserTriple(users, data, rows, 2, None);
  }

  /** A quotient times its non-zero denominator gives back its numerator. */
  lemma QuotientTimesDenominator(n: nat, d: nat)
    requires d > 0
    ensures AverageValue(Quotient(n, d)) * (d as real) == n as real
  {
  }

  /** The average a is the mean of total over count: a times count gives back total. */
  predicate MeanOf(a: Average, total: nat, count: nat)
  {
    AverageValue(a) * (count as real) == total as real
  }

  /** The three averages of a row whose quotients are the ones RowFor stores. */
  lemma RowMeans(row: StatsRow)
    requires row.messageCount > 0 && row.wordCount > 0
    requires row.avgMessageLength == Quotient(row.characterCount, row.messageCount)
    requires row.avgWordLength == Quotient(row.characterCount, row.wordCount)
    requires row.avgWordsPerMessage == Quotient(row.wordCount, row.messageCount)
    ensures MeanOf(row.avgMessageLength, row.characterCount, row.messageCount)
    ensures MeanOf(row.avgWordLength, row.characterCount, row.wordCount)
    ensures MeanOf(row.avgWordsPerMessage, row.wordCount, row.messageCount)
  {
    QuotientTimesDenominator(row.characterCount, row.messageCount);
    QuotientTimesDenominator(row.characterCount, row.wordCount);
    QuotientTimesDenominator(row.wordCount, row.messageCount);
  }

  /** Each average of a computed row is the mean it names: avg_message_length times the
      message count is the character count, avg_word_length times the word count is the
      character count, avg_words_per_message times the message count is the word count.
      A row that selects nothing has averages 0. */
  lemma RowAverages(users: Users, data: seq<Message>, c: Combination)
    requires RowFor(users, data, c).Ok?
    ensures var row := RowFor(users, data, c).value;
      row.messageCount > 0 ==>
        MeanOf(row.avgMessageLength, row.characterCount, row.messageCount) &&
        MeanOf(row.avgWordLength, row.characterCount, row.wordCount) &&
        MeanOf(row.avgWordsPerMessage, row.wordCount, row.messageCount)
    ensures var row := RowFor(users, data, c).value;
      row.messageCount == 0 ==>
        AverageValue(row.avgMessageLength) == AverageValue(row.avgWordLength) == AverageValue(row.avgWordsPerMessage) == 0.0
  {
    var row := RowFor(users, data, c).value;
    if row.messageCount > 0 {
      RowMeans(row);
    }
  }
}
