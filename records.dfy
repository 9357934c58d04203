/**
 * A survey response as the read endpoint returns it, and how the list
 * view shows one: activity tags split on commas and trimmed (empty tags
 * kept), the satisfaction answer with its emoji, and `-` for a missing
 * field.
 */
module Records {
  import opened Wrappers
  import opened Text

  /**
   * One response. Every field of the JSON object may be absent; the
   * timestamp is taken as already parsed to an integer.
   */
  datatype Record = Record(
    Location: Option<string>,
    Outdoor: Option<string>,
    Activity: Option<string>,
    Time: Option<string>,
    Mood: Option<string>,
    Satisfaction: Option<string>,
    Important: Option<string>,
    Recommend: Option<string>,
    Memory: Option<string>,
    Timestamp: int)

  /** `record.Activity || ''`: a missing Activity reads as the empty string. */
  function ActivityText(r: Record): string {
    if r.Activity.Some? then r.Activity.value else ""
  }

  /**
   * The tags of the list view: `Activity` split on `,` and each piece
   * trimmed. Empty pieces are kept, so there is one tag per comma plus one.
   */
  function DisplayTags(r: Record): (tags: seq<string>)
    ensures |tags| == Count(ActivityText(r), ',') + 1
  {
    TrimAll(Split(ActivityText(r), ','))
  }

  /** Every tag is trimmed and holds no comma. */
  lemma DisplayTagsClean(r: Record)
    ensures forall t :: t in DisplayTags(r) ==> Trimmed(t) && ',' !in t
  {
    var pieces := Split(ActivityText(r), ',');
    var tags := DisplayTags(r);
    forall t | t in tags ensures Trimmed(t) && ',' !in t {
      var i :| 0 <= i < |tags| && tags[i] == t;
      TrimAllAt(pieces, i);
      assert pieces[i] in pieces;
      TrimSlice(pieces[i]);
      TrimNoNewChars(pieces[i], ',');
    }
  }

  /** Trimming only removes characters. */
  lemma TrimNoNewChars(s: string, c: char)
    requires c !in s
    ensures c !in Trim(s)
  {
    var i := LeadingSpaces(s);
    assert forall k :: 0 <= k < |Trim(s)| ==> Trim(s)[k] == s[i + k];
  }

  /** The fixed table from satisfaction answer to emoji. */
  const SatisfactionEmojis: map<string, string> :=
    map["매우 좋음" := "🤩", "좋음" := "😊", "보통" := "😐", "별로" := "😞"]

  /**
   * `satisfactionEmojis[record.Satisfaction] || ''`: the mapped emoji for
   * one of the four labels, the empty string for anything else.
   */
  function SatisfactionEmoji(answer: Option<string>): (e: string)
    ensures answer.Some? && answer.value in SatisfactionEmojis ==> e == SatisfactionEmojis[answer.value]
    ensures e == "" <==> !(answer.Some? && answer.value in SatisfactionEmojis)
  {
    if answer.Some? && answer.value in SatisfactionEmojis then SatisfactionEmojis[answer.value] else ""
  }

  /** The emoji table, entry by entry, and the fallback for every other answer. */
  lemma SatisfactionEmojiTable(answer: string)
    ensures SatisfactionEmoji(Some("매우 좋음")) == "🤩"
    ensures SatisfactionEmoji(Some("좋음")) == "😊"
    ensures SatisfactionEmoji(Some("보통")) == "😐"
    ensures SatisfactionEmoji(Some("별로")) == "😞"
    ensures answer !in {"매우 좋음", "좋음", "보통", "별로"} ==> SatisfactionEmoji(Some(answer)) == ""
    ensures SatisfactionEmoji(None) == ""
  {
  }

  /** `value || '-'`: the field, or a dash when it is missing or empty. */
  function OrDash(o: Option<string>): string {
    if o.Some? && o.value != "" then o.value else "-"
  }

  /** `${value}` in a template: a missing field prints as `undefined`. */
  function Interpolated(o: Option<string>): string {
    if o.Some? then o.value else "undefined"
  }

  /** The text content of one row of the list view. */
  datatype Row = Row(
    location: string,
    outdoor: string,
    activityTitle: string,
    tags: seq<string>,
    time: string,
    mood: string,
    satisfactionTitle: string,
    satisfaction: string)

  function RowOf(r: Record): Row {
    Row(OrDash(r.Location), OrDash(r.Outdoor), Interpolated(r.Activity), DisplayTags(r),
        OrDash(r.Time), OrDash(r.Mood), Interpolated(r.Important),
        SatisfactionEmoji(r.Satisfaction) + " " + Interpolated(r.Satisfaction) + " / " + Interpolated(r.Important))
  }

  /** The rows of the list view, one per record, in the order given. */
  function Rows(records: seq<Record>): (rows: seq<Row>)
    ensures |rows| == |records|
    ensures forall i :: 0 <= i < |records| ==> rows[i] == RowOf(records[i])
  {
    seq(|records|, i requires 0 <= i < |records| => RowOf(records[i]))
  }
}
