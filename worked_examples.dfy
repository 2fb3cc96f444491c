/** Concrete inputs: the timestamp with nine fractional digits and its six-digit form,
    the two Instagram messages of the quiet-mode rule, and a Discord row without a
    content column. */
module WorkedExamples {
  import opened Common
  import opened DiscordTimestamp
  import opened TimestampProperties
  import opened Instagram
  import opened Discord

  // ---------------------------------------------------------------------------
  // 2023-05-01T12:00:00.123456+02:00 is 2023-05-01T10:00:00Z, epoch second 1682935200
  // ---------------------------------------------------------------------------

  const SixDigits: string := "2023-05-01T12:00:00.123456+02:00"
  const NineDigits: string := "2023-05-01T12:00:00.123456789+02:00"
  const ExampleDateTime: DateTime := DateTime(2023, 5, 1, 12, 0, 0, 123456)

  lemma ExampleNumerals()
    ensures DigitsValue("2023") == 2023 && DigitsValue("05") == 5 && DigitsValue("01") == 1
    ensures DigitsValue("12") == 12 && DigitsValue("00") == 0 && DigitsValue("123456") == 123456
  {
    assert "2023"[..3] == "202" && "202"[..2] == "20";
    assert "123456"[..5] == "12345" && "12345"[..4] == "1234" && "1234"[..3] == "123" && "123"[..2] == "12";
  }

  lemma ExampleSlices()
    ensures var g := SixDigits[..26];
      g[0..4] == "2023" && g[5..7] == "05" && g[8..10] == "01" && g[11..13] == "12" &&
      g[14..16] == "00" && g[17..19] == "00" && g[20..26] == "123456"
  {
    var t := SixDigits;
    var g := t[..26];
    assert g[0..4] == t[0..4] == "2023" by { assert t[0] == '2' && t[1] == '0' && t[2] == '2' && t[3] == '3'; }
    assert g[5..7] == t[5..7] == "05" by { assert t[5] == '0' && t[6] == '5'; }
    assert g[8..10] == t[8..10] == "01" by { assert t[8] == '0' && t[9] == '1'; }
    assert g[11..13] == t[11..13] == "12" by { assert t[11] == '1' && t[12] == '2'; }
    assert g[14..16] == t[14..16] == "00" by { assert t[14] == '0' && t[15] == '0'; }
    assert g[17..19] == t[17..19] == "00" by { assert t[17] == '0' && t[18] == '0'; }
    assert g[20..26] == t[20..26] == "123456" by {
      assert t[20] == '1' && t[21] == '2' && t[22] == '3' && t[23] == '4' && t[24] == '5' && t[25] == '6';
    }
  }

  lemma ExampleFields()
    ensures Group1Shape(SixDigits)
    ensures FieldsOf(SixDigits) == ExampleDateTime
  {
    assert Group1Shape(SixDigits);
    ExampleSlices();
    ExampleNumerals();
  }

  lemma ExampleMatch()
    ensures MatchGroups(SixDigits) == Some(Groups("2023-05-01T12:00:00.123456", "+02:00", 26))
  {
    var t := SixDigits;
    ExampleFields();
    RunEndIs(t, 26, 29);
    LastPlusIs(t, 26, 29, 26);
    LineEndIs(t, 26, 32);
    assert t[..26] == "2023-05-01T12:00:00.123456";
    assert t[26..32] == "+02:00";
  }

  lemma ExampleOffset()
    ensures ParseUtcOffset("+02:00") == Some(7200 * 1000000)
  {
    var z := "+02:00";
    assert z[1..3] == "02" && z[4..6] == "00" && z[6..] == [];
    assert DigitsValue("02") == 2 && DigitsValue("00") == 0;
  }

  lemma ExampleEpoch()
    ensures EpochSeconds(Stamp(ExampleDateTime, 7200 * 1000000)) == 1682935200
  {
  }

  lemma SixDigitsJoin()
    ensures "2023-05-01T12:00:00.123456" + "+02:00" == SixDigits
    ensures SixDigits[26..] == "+02:00"
  {
  }

  lemma NineDigitsJoin()
    ensures "2023-05-01T12:00:00.123456" + "789" + "+02:00" == NineDigits
  {
  }

  /** The text with six fractional digits reads as 10:00 UTC. */
  lemma SixDigitsExample(s: string)
    requires s == SixDigits
    ensures ParseDiscordTimestamp(s) == Ok(1682935200)
  {
    ExampleMatch();
    ExampleFields();
    SixDigitsJoin();
    ExampleOffset();
    ExampleEpoch();
  }

  /** The digits beyond the sixth are not rounded: both spellings give the same second. */
  lemma NineDigitsExample(s: string)
    requires s == NineDigits
    ensures ParseDiscordTimestamp(s) == Ok(1682935200)
  {
    var head, extra, tail := "2023-05-01T12:00:00.123456", "789", "+02:00";
    ExtraDigitsIgnored(head, extra, tail);
    NineDigitsJoin();
    SixDigitsJoin();
    SixDigitsExample(head + tail);
  }

  // ---------------------------------------------------------------------------
  // Instagram
  // ---------------------------------------------------------------------------

  /** A quiet-mode notice is dropped, an ordinary message kept with its timestamp in seconds. */
  lemma QuietModeExample()
    ensures var notice := RawMessage(Some("A"), Some(1000), Some("X " + QuietModeSuffix));
            var hello := RawMessage(Some("A"), Some(1000), Some("hello"));
            ProcessInstagramData(Some([notice, hello])) == Ok([Message(Instagram, "A", 1, "hello")])
  {
    var notice := RawMessage(Some("A"), Some(1000), Some("X " + QuietModeSuffix));
    var hello := RawMessage(Some("A"), Some(1000), Some("hello"));
    QuietModeNoticeDropped([hello], notice);
    assert [notice] + [hello] == [notice, hello];
    assert Kept(hello) by { assert |QuietModeSuffix| > |"hello"|; }
    assert TruncDiv(1000, 1000) == 1;
    assert ToCanonical(hello) == Ok(Message(Instagram, "A", 1, "hello"));
    var ms := [hello];
    assert ms[0] == hello && ms[1..] == [];
    assert ProcessMessages(ms[1..]) == Ok([]);
    var kept := Message(Instagram, "A", 1, "hello");
    assert [kept] + [] == [kept];
    assert ProcessMessages(ms) == Ok([Message(Instagram, "A", 1, "hello")]);
  }

  // ---------------------------------------------------------------------------
  // Discord
  // ---------------------------------------------------------------------------

  /** A row with no content column and an unreadable timestamp is the first bad row, and
      what it raises is the ValueError of the timestamp, not an IndexError. */
  lemma MissingContentExample(header: seq<string>)
    requires header != []
    ensures FirstBadRow([header, ["1", "2", "bad-timestamp"]], 1)
    ensures ConvertRow(["1", "2", "bad-timestamp"]) == Err(ValueError)
  {
    ShortFractionRejected("bad-timestamp");
  }
}
