/**
 * The message envelope exchanged between clients (`WebSocketMsgDto`): the
 * destination usernames, the sender's name and an opaque payload. Java's
 * nullable fields are `Option`s; the datatype's field selectors are the getters.
 */
module MsgDto {
  import opened Wrappers

  /** Fields in declaration order, which is also `toString`'s order.
      `dataBody` is an arbitrary decoded JSON value; the model keeps the text its
      `toString` renders. A `None` entry in `targets` is a JSON `null` element. */
  datatype WebSocketMsgDto = WebSocketMsgDto(
    targets: Option<seq<Option<string>>>,
    source: Option<string>,
    dataBody: Option<string>)

  /** The no-argument constructor: every field null. */
  function Empty(): (d: WebSocketMsgDto)
    ensures d.targets.None? && d.source.None? && d.dataBody.None?
  {
    WebSocketMsgDto(None, None, None)
  }

  /** The three-argument constructor; note its argument order (source, targets, dataBody)
      differs from the field order. */
  function Create(source: Option<string>, targets: Option<seq<Option<string>>>, dataBody: Option<string>): (d: WebSocketMsgDto)
    ensures d.source == source && d.targets == targets && d.dataBody == dataBody
  {
    WebSocketMsgDto(targets, source, dataBody)
  }

  function SetTargets(d: WebSocketMsgDto, targets: Option<seq<Option<string>>>): (r: WebSocketMsgDto)
    ensures r.targets == targets
    ensures r.source == d.source && r.dataBody == d.dataBody
  {
    d.(targets := targets)
  }

  function SetSource(d: WebSocketMsgDto, source: Option<string>): (r: WebSocketMsgDto)
    ensures r.source == source
    ensures r.targets == d.targets && r.dataBody == d.dataBody
  {
    d.(source := source)
  }

  function SetDataBody(d: WebSocketMsgDto, dataBody: Option<string>): (r: WebSocketMsgDto)
    ensures r.dataBody == dataBody
    ensures r.targets == d.targets && r.source == d.source
  {
    d.(dataBody := dataBody)
  }

  /** Java's string concatenation of a possibly null reference. */
  function NullableText(s: Option<string>): string {
    match s
    case None => "null"
    case Some(t) => t
  }

  /** The elements rendered and separated by ", ", as `AbstractCollection.toString` does inside its brackets. */
  function JoinElements(items: seq<Option<string>>): string {
    if items == [] then ""
    else if |items| == 1 then NullableText(items[0])
    else NullableText(items[0]) + ", " + JoinElements(items[1..])
  }

  /** Rendering one more element extends the text by a separator and that
      element, and a single element renders alone: together these pin the text
      down for every list. */
  lemma {:induction false} JoinElementsAppend(items: seq<Option<string>>, y: Option<string>)
    ensures items == [] ==> JoinElements(items + [y]) == NullableText(y)
    ensures items != [] ==> JoinElements(items + [y]) == JoinElements(items) + ", " + NullableText(y)
  {
    if items == [] {
      assert items + [y] == [y];
    } else {
      var longer := items + [y];
      assert longer[0] == items[0] && |longer| > 1;
      if |items| == 1 {
        assert longer[1..] == [y];
      } else {
        assert longer[1..] == items[1..] + [y];
        JoinElementsAppend(items[1..], y);
        var head, rest := NullableText(items[0]), JoinElements(items[1..]);
        assert head + ", " + (rest + ", " + NullableText(y)) == (head + ", " + rest) + ", " + NullableText(y);
      }
    }
  }

  /** `List.toString`, or "null" for a null list. */
  function TargetsText(targets: Option<seq<Option<string>>>): (r: string)
    ensures targets.None? ==> r == "null"
    ensures targets.Some? ==> |r| >= 2 && r[0] == '[' && r[|r| - 1] == ']'
    ensures targets.Some? ==> r[1..|r| - 1] == JoinElements(targets.value)
    ensures targets.Some? && targets.value == [] ==> r == "[]"
  {
    match targets
    case None => "null"
    case Some(items) => "[" + JoinElements(items) + "]"
  }

  function ToString(d: WebSocketMsgDto): (r: string)
    ensures |r| > 24 && r[..24] == "WebSocketMsgDto{targets=" && r[|r| - 1] == '}'
    ensures |r| > 24 + |TargetsText(d.targets)|
    ensures r[24..24 + |TargetsText(d.targets)|] == TargetsText(d.targets)
    ensures r[24 + |TargetsText(d.targets)|..] == ", source='" + NullableText(d.source) + "', dataBody=" + NullableText(d.dataBody) + "}"
  {
    var head := "WebSocketMsgDto{targets=";
    var tail := ", source='" + NullableText(d.source) + "', dataBody=" + NullableText(d.dataBody) + "}";
    var r := head + TargetsText(d.targets) + tail;
    assert r[..24] == head;
    assert r[24..24 + |TargetsText(d.targets)|] == TargetsText(d.targets);
    assert r[24 + |TargetsText(d.targets)|..] == tail;
    r
  }
}
