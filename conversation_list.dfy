/** The two display helpers of frontend/src/components/ConversationList.js: the relative time
    of a conversation's last message, and the shortened preview of its text. Timestamps are
    milliseconds; the absolute date of an old message is left to the locale formatter. */
module ConversationList {
  import opened Common

  /** The label `formatTime` yields, before it is rendered as text. */
  datatype TimeLabel =
    | NoTime
    | JustNow
    | MinutesAgo(minutes: nat)
    | HoursAgo(hours: nat)
    | DaysAgo(days: nat)
    | OnDate(timestamp: int)

  /** Whole minutes elapsed: `Math.floor(diffInMs / 60000)` (Dafny's division by a positive
      divisor rounds down, as `Math.floor` does, also for a timestamp in the future). */
  function ElapsedMinutes(timestamp: int, now: int): (m: int)
    ensures m * 60000 <= now - timestamp < (m + 1) * 60000
  {
    (now - timestamp) / 60000
  }

  /** `formatTime`: no timestamp gives no label; then the first bucket that fits. */
  function FormatTime(timestamp: Option<int>, now: int): (r: TimeLabel)
    ensures timestamp.None? <==> r == NoTime
    ensures r.JustNow? <==> timestamp.Some? && ElapsedMinutes(timestamp.value, now) < 1
    ensures r.MinutesAgo? <==> timestamp.Some? && 1 <= ElapsedMinutes(timestamp.value, now) < 60
    ensures r.HoursAgo? <==> timestamp.Some? && 60 <= ElapsedMinutes(timestamp.value, now) < 1440
    ensures r.DaysAgo? <==> timestamp.Some? && 1440 <= ElapsedMinutes(timestamp.value, now) < 10080
    ensures r.OnDate? <==> timestamp.Some? && ElapsedMinutes(timestamp.value, now) >= 10080
    ensures r.MinutesAgo? ==> 1 <= r.minutes <= 59 && r.minutes == ElapsedMinutes(timestamp.value, now)
    ensures r.HoursAgo? ==> 1 <= r.hours <= 23 && r.hours * 60 <= ElapsedMinutes(timestamp.value, now) < (r.hours + 1) * 60
    ensures r.DaysAgo? ==> 1 <= r.days <= 6 && r.days * 1440 <= ElapsedMinutes(timestamp.value, now) < (r.days + 1) * 1440
    ensures r.OnDate? ==> r.timestamp == timestamp.value
  {
    match timestamp
    case None => NoTime
    case Some(t) =>
      var mins := ElapsedMinutes(t, now);
      if mins < 1 then JustNow
      else if mins < 60 then MinutesAgo(mins)
      else if mins < 1440 then HoursAgo(mins / 60)
      else if mins < 10080 then DaysAgo(mins / 1440)
      else OnDate(t)
  }

  /** The text of a label, except the locale-formatted date. */
  function LabelText(l: TimeLabel): (r: Option<string>)
    ensures l.OnDate? <==> r.None?
  {
    match l
    case NoTime => Some("")
    case JustNow => Some("Vừa xong")
    case MinutesAgo(n) => Some(NatToString(n) + " phút")
    case HoursAgo(n) => Some(NatToString(n) + " giờ")
    case DaysAgo(n) => Some(NatToString(n) + " ngày")
    case OnDate(_) => None
  }

  /** Later viewing never moves a label to a more recent bucket. */
  lemma FormatTimeAges(t: int, now: int, later: int)
    requires now <= later
    ensures Bucket(FormatTime(Some(t), now)) <= Bucket(FormatTime(Some(t), later))
  {
  }

  /** The position of a label's bucket, from the most recent. */
  function Bucket(l: TimeLabel): nat {
    match l
    case NoTime => 0
    case JustNow => 0
    case MinutesAgo(_) => 1
    case HoursAgo(_) => 2
    case DaysAgo(_) => 3
    case OnDate(_) => 4
  }

  const NoMessageText: string := "Không có tin nhắn"
  const PreviewLength: nat := 40
  const Ellipsis: seq<CodeUnit> := [46, 46, 46]

  /** `text.length > 40 ? text.substring(0, 40) + '...' : text` on a non-empty JavaScript
      string: lengths and the cut are in UTF-16 code units, so a cut may split a surrogate
      pair. */
  function Shorten(u: seq<CodeUnit>): (r: seq<CodeUnit>)
    ensures |u| <= PreviewLength ==> r == u
    ensures |u| > PreviewLength ==>
      |r| == PreviewLength + 3 && r[..PreviewLength] == u[..PreviewLength] && r[PreviewLength..] == Ellipsis
  {
    if |u| > PreviewLength then u[..PreviewLength] + Ellipsis else u
  }

  /** `truncateMessage` with its default length of 40: an empty or absent text gives the
      placeholder; otherwise the text, as UTF-16, shortened to 40 code units and `...`. */
  function Truncate(text: Option<string>): (r: seq<CodeUnit>)
    ensures !Present(text) ==> r == Utf16(NoMessageText)
    ensures Present(text) && |Utf16(text.value)| <= PreviewLength ==> r == Utf16(text.value)
    ensures Present(text) && |Utf16(text.value)| > PreviewLength ==>
      |r| == PreviewLength + 3 && r[..PreviewLength] == Utf16(text.value)[..PreviewLength]
      && r[PreviewLength..] == Ellipsis
  {
    if !Present(text) then Utf16(NoMessageText) else Shorten(Utf16(text.value))
  }

  /** A preview is short: never more than 43 code units. */
  lemma TruncateBounded(text: Option<string>)
    ensures |Truncate(text)| <= PreviewLength + 3
  {
    if !Present(text) {
      Utf16Bmp(NoMessageText);
    }
  }

  /** Shortening an already shortened string changes nothing. */
  lemma ShortenIdempotent(u: seq<CodeUnit>)
    ensures Shorten(Shorten(u)) == Shorten(u)
  {
    var r := Shorten(u);
    if |u| > PreviewLength {
      assert r[..PreviewLength] + Ellipsis == r;
    }
  }

  /** Below U+10000 the limit is 40 characters: such a text of at most 40 is shown whole. */
  lemma TruncateShortBmp(t: string)
    requires t != [] && |t| <= PreviewLength
    requires forall i :: 0 <= i < |t| ==> t[i] as int < 0x1_0000
    ensures Truncate(Some(t)) == Utf16(t)
  {
    Utf16Bmp(t);
  }

  /** Each emoji beyond U+FFFF takes two code units: 25 of them (25 characters) exceed the
      limit, and the preview keeps 20 of them before `...`. */
  lemma TruncateCountsCodeUnits()
    ensures Truncate(Some(seq(25, _ => '\U{1F600}'))) == Utf16(seq(20, _ => '\U{1F600}')) + Ellipsis
  {
    var e := '\U{1F600}';
    var t := seq(25, _ => e);
    assert t == seq(20, _ => e) + seq(5, _ => e);
    Utf16Append(seq(20, _ => e), seq(5, _ => e));
    Utf16Astral(e, 20);
    Utf16Astral(e, 5);
    assert t != [];
  }
}
