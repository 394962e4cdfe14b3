/**
 The alert hook `useAlertsSocket(url)`: one socket, no reconnect, and a single
 "latest alert" slot that every parsed frame other than the `hello` handshake
 overwrites. Opening, closing and errors only log.
 */
module AlertSocket {
  import opened JsValue

  /** `data.type === "hello"` for a parsed value that is not nullish. */
  predicate IsHello(data: Value)
    requires !IsNullish(data)
    ensures IsHello(data) <==> data.Obj? && "type" in data.fields && data.fields["type"] == Str("hello")
  {
    assert "type"[0] in "type" && !IsIndexKey("type");
    Get(data, "type") == Str("hello")
  }

  /** Whether a frame reaches `setAlert`: it parsed, reading its `type` did
      not throw (the value is not `null`), and it is not the handshake. */
  predicate Replaces(parsed: Option<Value>)
    ensures parsed.None? || IsNullish(parsed.value) ==> !Replaces(parsed)
    ensures parsed.Some? && !parsed.value.Obj? && !IsNullish(parsed.value) ==> Replaces(parsed)
    ensures parsed.Some? && parsed.value.Obj? ==>
      (Replaces(parsed) <==> !("type" in parsed.value.fields && parsed.value.fields["type"] == Str("hello")))
  {
    parsed.Some? && !IsNullish(parsed.value) && !IsHello(parsed.value)
  }

  /** The slot after one frame: an unparseable frame, a `null` payload (whose
      `.type` read throws inside the `try`) and a `hello` frame leave it
      alone; any other parsed value replaces it wholesale. */
  function NextAlert(slot: Value, parsed: Option<Value>): (r: Value)
    ensures parsed.None? ==> r == slot
    ensures parsed.Some? && IsNullish(parsed.value) ==> r == slot
    ensures parsed.Some? && !IsNullish(parsed.value) && Get(parsed.value, "type") == Str("hello") ==> r == slot
    ensures parsed.Some? && !IsNullish(parsed.value) && Get(parsed.value, "type") != Str("hello") ==> r == parsed.value
    ensures parsed.Some? && parsed.value.Obj? && "type" !in parsed.value.fields ==> r == parsed.value
    ensures r == slot || (parsed.Some? && r == parsed.value)
  {
    if Replaces(parsed) then parsed.value else slot
  }

  /** The slot after a run of frames, one `onmessage` at a time. */
  function Replay(slot: Value, frames: seq<Option<Value>>): Value
    decreases |frames|
  {
    if frames == [] then slot else Replay(NextAlert(slot, frames[0]), frames[1..])
  }

  /** The reference reading of the slot: the newest frame that reaches
      `setAlert`, or the starting slot when none does. */
  function LatestAlert(slot: Value, frames: seq<Option<Value>>): Value
    decreases |frames|
  {
    if frames == [] then slot
    else if Replaces(frames[|frames| - 1]) then frames[|frames| - 1].value
    else LatestAlert(slot, frames[..|frames| - 1])
  }

  lemma {:induction false} ReplaySnoc(slot: Value, frames: seq<Option<Value>>, f: Option<Value>)
    ensures Replay(slot, frames + [f]) == NextAlert(Replay(slot, frames), f)
    decreases |frames|
  {
    if frames != [] {
      assert (frames + [f])[1..] == frames[1..] + [f];
      ReplaySnoc(NextAlert(slot, frames[0]), frames[1..], f);
    }
  }

  /** Replaying frames one by one leaves the slot holding the newest alert:
      a later alert supersedes an earlier one, and the handshake, unparseable
      frames and `null` payloads after it change nothing. */
  lemma {:induction false} ReplayIsLatestAlert(slot: Value, frames: seq<Option<Value>>)
    ensures Replay(slot, frames) == LatestAlert(slot, frames)
    decreases |frames|
  {
    if frames != [] {
      var init := frames[..|frames| - 1];
      assert frames == init + [frames[|frames| - 1]];
      ReplaySnoc(slot, init, frames[|frames| - 1]);
      ReplayIsLatestAlert(slot, init);
    }
  }

  /** One mounting of the hook. */
  class AlertsHook {
    const url: string
    /** The `alert` state slot the hook returns. */
    var alert: Value
    /** How many times `close()` was called on the socket. */
    var closeRequests: nat

    /** Mounting opens the one socket; the slot starts as `null`. */
    constructor (url: string)
      ensures this.url == url && alert == Null && closeRequests == 0
    {
      this.url := url;
      alert := Null;
      closeRequests := 0;
    }

    /** `onmessage` */
    method OnMessage(parsed: Option<Value>)
      modifies this`alert
      ensures alert == NextAlert(old(alert), parsed)
      ensures Replaces(parsed) ==> alert == parsed.value
      ensures !Replaces(parsed) ==> alert == old(alert)
    {
      if parsed.Some? {
        var data := parsed.value;
        if IsNullish(data) {
          // reading `data.type` throws; the `catch` only logs
        } else if IsHello(data) {
        } else {
          alert := data;
        }
      }
    }

    /** The cleanup closes the socket once; nothing else changes. */
    method Dispose()
      modifies this`closeRequests
      ensures closeRequests == old(closeRequests) + 1
    {
      closeRequests := closeRequests + 1;
    }
  }

  /** An alert followed by the handshake: the slot still holds the alert. */
  method AlertThenHelloScenario() returns (slot: Value)
    ensures slot == Obj(map["equipment" := Str("mill-2"), "prob" := Num(0.93)])
  {
    var hook := new AlertsHook("wss://alerts");
    var alert := Obj(map["equipment" := Str("mill-2"), "prob" := Num(0.93)]);
    hook.OnMessage(Some(alert));
    hook.OnMessage(Some(Obj(map["type" := Str("hello")])));
    hook.OnMessage(None);
    slot := hook.alert;
  }
}
