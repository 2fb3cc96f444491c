/** The Instagram parser (process_instagram_data): one filtering comprehension over
    the export's "messages" list. */
module Instagram {
  import opened Common

  /** A message object of the export as json.load gives it; an absent key (or a JSON
      null, for content) is None. */
  datatype RawMessage = RawMessage(senderName: Option<string>, timestampMs: Option<int>, content: Option<string>)

  /** The KeyError raised when a kept message lacks a field the tuple needs. */
  datatype KeyError = MissingKey(key: string)

  const QuietModeSuffix: string := "wasn't notified about this message because they're in quiet mode."

  predicate EndsWith(s: string, suffix: string)
  {
    |suffix| <= |s| && s[|s| - |suffix|..] == suffix
  }

  /** The comprehension's filter: content present, non-empty and not a quiet-mode notice. */
  predicate Kept(m: RawMessage)
  {
    m.content.Some? && m.content.value != [] && !EndsWith(m.content.value, QuietModeSuffix)
  }

  predicate Complete(m: RawMessage)
  {
    m.senderName.Some? && m.timestampMs.Some?
  }

  /** The tuple built for one kept message: ('instagram', sender_name, int(timestamp_ms / 1000), content).
      The fields are read left to right, so a missing sender_name is reported first. */
  function ToCanonical(m: RawMessage): (r: Result<Message, KeyError>)
    requires Kept(m)
    ensures r.Ok? <==> Complete(m)
    ensures r.Ok? ==> r.value.platform == Instagram && r.value.author == m.senderName.value &&
                      r.value.content == m.content.value
    ensures r.Ok? ==> var ms := m.timestampMs.value; r.value.timestamp == TruncDiv(ms, 1000)
    ensures r.Err? ==> r.error == MissingKey(if m.senderName.None? then "sender_name" else "timestamp_ms")
  {
    match m.senderName
    case None => Err(MissingKey("sender_name"))
    case Some(sender) =>
      match m.timestampMs
      case None => Err(MissingKey("timestamp_ms"))
      case Some(ms) => Ok(Message(Instagram, sender, TruncDiv(ms, 1000), m.content.value))
  }

  /** The comprehension over a message list; the first KeyError ends it and nothing
      built so far is returned. */
  function ProcessMessages(ms: seq<RawMessage>): (r: Result<seq<Message>, KeyError>)
    ensures r.Ok? ==> |r.value| <= |ms|
    ensures r.Ok? ==> forall i :: 0 <= i < |r.value| ==> r.value[i].platform == Instagram
  {
    if ms == [] then Ok([])
    else if !Kept(ms[0]) then ProcessMessages(ms[1..])
    else
      match ToCanonical(ms[0])
      case Err(e) => Err(e)
      case Ok(t) =>
        match ProcessMessages(ms[1..])
        case Err(e) => Err(e)
        case Ok(rest) => Ok([t] + rest)
  }

  /** process_instagram_data on a loaded document: `.get('messages', [])`. */
  function ProcessInstagramData(messages: Option<seq<RawMessage>>): (r: Result<seq<Message>, KeyError>)
    ensures messages.None? ==> r == Ok([])
  {
    match messages
    case None => Ok([])
    case Some(ms) => ProcessMessages(ms)
  }

  // ---------------------------------------------------------------------------
  // The kept subsequence
  // ---------------------------------------------------------------------------

  /** The messages the filter keeps, in their original order. */
  function KeptMessages(ms: seq<RawMessage>): (r: seq<RawMessage>)
    ensures |r| <= |ms|
    ensures forall i :: 0 <= i < |r| ==> Kept(r[i]) && r[i] in ms
  {
    if ms == [] then []
    else if Kept(ms[0]) then [ms[0]] + KeptMessages(ms[1..])
    else KeptMessages(ms[1..])
  }

  /** Filtering a concatenation filters each part in turn: the order is kept. */
  lemma {:induction false} KeptMessagesAppend(a: seq<RawMessage>, b: seq<RawMessage>)
    ensures KeptMessages(a + b) == KeptMessages(a) + KeptMessages(b)
  {
    if a == [] {
      assert a + b == b;
    } else {
      assert (a + b)[1..] == a[1..] + b;
      KeptMessagesAppend(a[1..], b);
    }
  }

  /** Every kept message of the input is in the kept subsequence. */
  lemma {:induction false} KeptMessagesComplete(ms: seq<RawMessage>, i: nat)
    requires i < |ms| && Kept(ms[i])
    ensures ms[i] in KeptMessages(ms)
  {
    if i > 0 {
      KeptMessagesComplete(ms[1..], i - 1);
    }
  }

  /** The parse succeeds exactly when every kept message has sender_name and timestamp_ms,
      and then yields the canonical tuple of each kept message, in order. */
  lemma {:induction false} ProcessMessagesKeptTuples(ms: seq<RawMessage>)
    ensures ProcessMessages(ms).Ok? <==> forall i :: 0 <= i < |ms| && Kept(ms[i]) ==> Complete(ms[i])
    ensures ProcessMessages(ms).Ok? ==>
      var out := ProcessMessages(ms).value;
      var kept := KeptMessages(ms);
      |out| == |kept| && forall j :: 0 <= j < |out| ==> ToCanonical(kept[j]) == Ok(out[j])
  {
    if ms != [] {
      ProcessMessagesKeptTuples(ms[1..]);
      assert forall i :: 1 <= i < |ms| ==> ms[i] == ms[1..][i - 1];
      if Kept(ms[0]) && Complete(ms[0]) && ProcessMessages(ms[1..]).Ok? {
        var out := ProcessMessages(ms).value;
        var kept := KeptMessages(ms);
        assert out[1..] == ProcessMessages(ms[1..]).value;
        assert kept[1..] == KeptMessages(ms[1..]);
        forall j | 0 <= j < |out| ensures ToCanonical(kept[j]) == Ok(out[j]) {
          if j > 0 {
            assert kept[j] == KeptMessages(ms[1..])[j - 1];
            assert out[j] == ProcessMessages(ms[1..]).value[j - 1];
          }
        }
      }
    }
  }

  /** The first kept message that lacks a field decides the error. */
  lemma {:induction false} FirstIncompleteDecides(ms: seq<RawMessage>, i: nat)
    requires i < |ms| && Kept(ms[i]) && !Complete(ms[i])
    requires forall j :: 0 <= j < i && Kept(ms[j]) ==> Complete(ms[j])
    ensures ProcessMessages(ms) == Err(ToCanonical(ms[i]).error)
  {
    if i > 0 {
      assert forall j :: 0 <= j < i - 1 ==> ms[1..][j] == ms[j + 1];
      FirstIncompleteDecides(ms[1..], i - 1);
    }
  }

  /** A quiet-mode notice is dropped whatever its other fields say. */
  lemma QuietModeNoticeDropped(ms: seq<RawMessage>, m: RawMessage)
    requires m.content.Some? && EndsWith(m.content.value, QuietModeSuffix)
    ensures ProcessMessages([m] + ms) == ProcessMessages(ms)
  {
    assert ([m] + ms)[1..] == ms;
  }
}
