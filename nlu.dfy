/** The deterministic part of internal/gemini/nlu.go: rune-level substring
    search, district extraction from a fixed list, the handling of the
    language model's reply after JSON decoding, and the "HH:MM" time-window
    parser. The model call and the JSON decoder are outside the model; the
    reply reaches AnalyzeIntent already classified as an LlmReply. */
module Nlu {
  import opened Common
  import opened GoStrings
  import opened Clock

  // ---------------------------------------------------------------------
  // Substring search over runes
  // ---------------------------------------------------------------------

  /** sub occurs in text starting at rune index i. */
  predicate OccursAt(text: string, sub: string, i: int)
  {
    0 <= i && i + |sub| <= |text| && forall m :: 0 <= m < |sub| ==> text[i + m] == sub[m]
  }

  predicate Occurs(text: string, sub: string)
  {
    exists i :: 0 <= i <= |text| - |sub| && OccursAt(text, sub, i)
  }

  /** findSubstring: the smallest rune index at which sub occurs in text,
      or -1 when there is none (in particular when sub is the longer). */
  method FindSubstring(text: string, sub: string) returns (idx: int)
    ensures idx == -1 <==> !Occurs(text, sub)
    ensures idx != -1 ==> OccursAt(text, sub, idx) && forall k :: 0 <= k < idx ==> !OccursAt(text, sub, k)
  {
    if |sub| > |text| {
      return -1;
    }
    var i := 0;
    while i <= |text| - |sub|
      invariant 0 <= i <= |text| - |sub| + 1
      invariant forall k :: 0 <= k < i ==> !OccursAt(text, sub, k)
    {
      var found := true;
      var j := 0;
      while j < |sub|
        invariant 0 <= j <= |sub|
        invariant forall m :: 0 <= m < j ==> text[i + m] == sub[m]
      {
        if text[i + j] != sub[j] {
          found := false;
          break;
        }
        j := j + 1;
      }
      if found {
        assert OccursAt(text, sub, i);
        return i;
      }
      i := i + 1;
    }
    return -1;
  }

  /** An occurrence never has more UTF-8 bytes than the text holding it. */
  lemma {:induction false} OccurrenceFitsBytes(text: string, sub: string, i: int)
    requires OccursAt(text, sub, i)
    ensures ByteLen(sub) <= ByteLen(text)
  {
    var before, after := text[..i], text[i + |sub|..];
    assert text == before + sub + after;
    ByteLenAppend(before + sub, after);
    ByteLenAppend(before, sub);
  }

  /** contains: the byte-length guard, then the rune search. The guard
      never rejects a real occurrence, so the result is exactly whether sub
      occurs in text. */
  method Contains(text: string, sub: string) returns (b: bool)
    ensures b <==> Occurs(text, sub)
  {
    b := ByteLen(text) >= ByteLen(sub);
    if b {
      var idx := FindSubstring(text, sub);
      b := idx != -1;
    } else if Occurs(text, sub) {
      var i :| 0 <= i <= |text| - |sub| && OccursAt(text, sub, i);
      OccurrenceFitsBytes(text, sub, i);
    }
  }

  // ---------------------------------------------------------------------
  // District extraction
  // ---------------------------------------------------------------------

  /** The cities and counties extractDistrict looks for, in its order. */
  const Districts: seq<string> := [
    "台北市", "新北市", "桃園市", "台中市", "台南市", "高雄市",
    "基隆市", "新竹市", "新竹縣", "苗栗縣", "彰化縣", "南投縣",
    "雲林縣", "嘉義市", "嘉義縣", "屏東縣", "宜蘭縣", "花蓮縣",
    "台東縣", "澎湖縣", "金門縣", "連江縣"]

  /** The position in `names` of the first name that occurs in text, or
      |names| when none does. */
  function FirstOccurring(text: string, names: seq<string>): (k: nat)
    ensures k <= |names|
    ensures k < |names| ==> Occurs(text, names[k])
    ensures forall m :: 0 <= m < k ==> !Occurs(text, names[m])
  {
    if |names| == 0 then 0
    else if Occurs(text, names[0]) then 0
    else 1 + FirstOccurring(text, names[1..])
  }

  /** What extractDistrict returns: the first listed district that occurs
      in text, by list order and not by position in text, or "". */
  function DistrictOf(text: string): string
  {
    var k := FirstOccurring(text, Districts);
    if k < |Districts| then Districts[k] else ""
  }

  /** The loop of extractDistrict over a list of names: the position of
      the first name contained in text, or |names|. */
  method FirstContained(text: string, names: seq<string>) returns (k: nat)
    ensures k == FirstOccurring(text, names)
  {
    k := 0;
    while k < |names|
      invariant 0 <= k <= |names|
      invariant forall m :: 0 <= m < k ==> !Occurs(text, names[m])
    {
      var found := Contains(text, names[k]);
      if found {
        return;
      }
      k := k + 1;
    }
  }

  /** extractDistrict. */
  method ExtractDistrict(text: string) returns (district: string)
    ensures district == DistrictOf(text)
  {
    var k := FirstContained(text, Districts);
    district := if k < |Districts| then Districts[k] else "";
  }

  /** The district found is one of the list and occurs in the text, and
      every district listed before it does not; none is found only when no
      listed district occurs. */
  lemma DistrictOfIsFirstListed(text: string)
    ensures DistrictOf(text) == "" <==> forall k :: 0 <= k < |Districts| ==> !Occurs(text, Districts[k])
    ensures DistrictOf(text) != "" ==>
      exists k :: 0 <= k < |Districts| && DistrictOf(text) == Districts[k] && Occurs(text, Districts[k])
        && forall m :: 0 <= m < k ==> !Occurs(text, Districts[m])
  {
    var k := FirstOccurring(text, Districts);
    assert forall j :: 0 <= j < |Districts| ==> |Districts[j]| == 3;
    if k < |Districts| {
      assert DistrictOf(text) == Districts[k];
    }
  }

  // ---------------------------------------------------------------------
  // The intent reply
  // ---------------------------------------------------------------------

  /** The time_window object of the reply: two "HH:MM" strings, either
      possibly empty. */
  datatype TimeWindow = TimeWindow(from: string, to: string)

  datatype IntentResult = IntentResult(district: string, timeWindow: TimeWindow, keywords: seq<string>, queryType: string)

  /** What the language model call produced: a failed call; a reply without
      candidates or parts; or a text reply, which the JSON decoder either
      turned into an IntentResult or rejected (None). */
  datatype LlmReply = CallFailed | NoCandidates | Replied(decoded: Option<IntentResult>)

  const DefaultQueryType: string := "garbage_truck_eta"

  /** The part of AnalyzeIntent after the model call: a failed or empty
      call is an error (None); an undecodable reply falls back to the
      district found in the message itself, the whole message as the only
      keyword, the default query type and an empty window; a decoded reply
      is kept, with the default query type when it gave none. */
  method AnalyzeIntent(message: string, reply: LlmReply) returns (r: Option<IntentResult>)
    ensures r.None? <==> !reply.Replied?
    ensures r.Some? ==> r.value.queryType != ""
    ensures reply.Replied? && reply.decoded.None? ==>
      r == Some(IntentResult(DistrictOf(message), TimeWindow("", ""), [message], DefaultQueryType))
    ensures reply.Replied? && reply.decoded.Some? ==>
      var d := reply.decoded.value;
      r.Some? && r.value.(queryType := d.queryType) == d
      && (d.queryType != "" ==> r.value.queryType == d.queryType)
      && (d.queryType == "" ==> r.value.queryType == DefaultQueryType)
  {
    if !reply.Replied? {
      return None;
    }
    if reply.decoded.None? {
      var district := ExtractDistrict(message);
      return Some(IntentResult(district, TimeWindow("", ""), [message], DefaultQueryType));
    }
    var result := reply.decoded.value;
    if result.queryType == "" {
      result := result.(queryType := DefaultQueryType);
    }
    return Some(result);
  }

  // ---------------------------------------------------------------------
  // The time window
  // ---------------------------------------------------------------------

  /** parseTimeString: "HH:MM" (or "H:MM") becomes that hour and minute,
      zero seconds, on the current day in the host's zone, `hostOffset`
      seconds east of UTC; anything else is an error (None). */
  function ParseTimeString(s: string, now: int, hostOffset: int): (t: Option<int>)
    ensures t.Some? <==> ParseClock(s, Colon).Some?
    ensures t.Some? ==> DayStart(now, hostOffset) <= t.value < DayStart(now, hostOffset) + Day
    ensures t.Some? ==> (t.value - DayStart(now, hostOffset)) % Minute == 0
  {
    match ParseClock(s, Colon)
    case None => None
    case Some((hour, minute)) => Some(AtClock(now, hostOffset, hour, minute))
  }

  /** A time written "HH:MM" reads back as that wall-clock time today; the
      compact "HHMM" form is an error here. */
  lemma ParseTimeStringFormats(hour: int, minute: int, now: int, hostOffset: int)
    requires 0 <= hour < 24 && 0 <= minute < 60
    ensures ParseTimeString(Pad2(hour) + ":" + Pad2(minute), now, hostOffset) == Some(AtClock(now, hostOffset, hour, minute))
    ensures ParseTimeString(Pad2(hour) + Pad2(minute), now, hostOffset).None?
  {
  }

  /** ParseTimeWindow: an empty bound stays unset (None); a non-empty one
      is parsed; if either fails the whole call is an error (None), even
      when the other bound parsed. */
  function ParseTimeWindow(w: TimeWindow, now: int, hostOffset: int): (r: Option<(Option<int>, Option<int>)>)
    ensures r.None? <==>
      (w.from != "" && ParseTimeString(w.from, now, hostOffset).None?)
      || (w.to != "" && ParseTimeString(w.to, now, hostOffset).None?)
    ensures r.Some? ==> (r.value.0.None? <==> w.from == "") && (r.value.1.None? <==> w.to == "")
    ensures r.Some? && w.from != "" ==> r.value.0 == ParseTimeString(w.from, now, hostOffset)
    ensures r.Some? && w.to != "" ==> r.value.1 == ParseTimeString(w.to, now, hostOffset)
  {
    var from := if w.from != "" then ParseTimeString(w.from, now, hostOffset) else None;
    if w.from != "" && from.None? then None
    else
      var to := if w.to != "" then ParseTimeString(w.to, now, hostOffset) else None;
      if w.to != "" && to.None? then None
      else Some((from, to))
  }
}
