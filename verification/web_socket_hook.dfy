/**
 The telemetry stream hook `useWebSocket(url)`: one socket at a time, a retry
 counter that survives across sockets, exponential backoff on every close, and
 a single "latest message" slot that a liveness flag guards.

 The browser's WebSocket, `setTimeout`/`clearTimeout` and `JSON.parse` are not
 modelled as code: their effects arrive as calls to the event methods of
 `ReconnectingSocket`, and a parse result is passed in as an `Option<Value>`.
 */
module WebSocketHook {
  import opened JsValue

  /** The ceiling of the retry counter. */
  const MaxRetries: nat := 30
  /** The base of the backoff, in milliseconds. */
  const BaseDelayMs: nat := 1000
  /** The ceiling of the backoff, in milliseconds. */
  const MaxDelayMs: nat := 30000

  /** `2 ** n` */
  function Pow2(n: nat): (r: nat)
    ensures r >= 1
  {
    if n == 0 then 1 else 2 * Pow2(n - 1)
  }

  /** The counter after a close: `Math.min(30, counter + 1)`. */
  function Bumped(retries: nat): (r: nat)
    ensures 1 <= r <= MaxRetries
    ensures retries < MaxRetries ==> r == retries + 1
    ensures retries >= MaxRetries ==> r == MaxRetries
  {
    Min(MaxRetries, retries + 1)
  }

  /** The reconnect delay for a counter value: `Math.min(30000, 1000 * 2 ** counter)`. */
  function BackoffDelay(retries: nat): (r: nat)
    ensures BaseDelayMs <= r <= MaxDelayMs
    ensures r <= BaseDelayMs * Pow2(retries)
    ensures r == MaxDelayMs || r == BaseDelayMs * Pow2(retries)
  {
    Min(MaxDelayMs, BaseDelayMs * Pow2(retries))
  }

  /** The counter after `closes` consecutive closes with no open in between. */
  function RetriesAfterCloses(start: nat, closes: nat): nat {
    if closes == 0 then start else Bumped(RetriesAfterCloses(start, closes - 1))
  }

  lemma {:induction false} Pow2Monotone(a: nat, b: nat)
    requires a <= b
    ensures Pow2(a) <= Pow2(b)
    decreases b - a
  {
    if a < b {
      Pow2Monotone(a + 1, b);
    }
  }

  /** A larger counter never gives a shorter delay. */
  lemma BackoffDelayMonotone(a: nat, b: nat)
    requires a <= b
    ensures BackoffDelay(a) <= BackoffDelay(b)
  {
    Pow2Monotone(a, b);
  }

  /** Once the counter has been bumped at least once the delay is between
      2 and 30 seconds, and from a counter of 5 on it is the 30-second cap
      (1000 * 2^4 = 16000 is the last uncapped value). */
  lemma BackoffDelayRange(retries: nat)
    requires retries >= 1
    ensures 2000 <= BackoffDelay(retries) <= MaxDelayMs
    ensures retries >= 5 <==> BackoffDelay(retries) == MaxDelayMs
  {
    BackoffDelayMonotone(1, retries);
    if retries >= 5 {
      BackoffDelayMonotone(5, retries);
      assert Pow2(5) == 32;
    } else {
      BackoffDelayMonotone(retries, 4);
      assert Pow2(4) == 16;
    }
  }

  /** Counting from an open (counter 0), `k` consecutive closes leave the
      counter at `min(k, 30)`: the k-th close schedules its reconnect after
      `min(30000, 1000 * 2^min(k, 30))` ms, so the first retry waits 2000 ms
      and every retry from the fifth on waits 30000 ms. */
  lemma {:induction false} ClosesAfterOpen(k: nat)
    ensures RetriesAfterCloses(0, k) == Min(k, MaxRetries)
    ensures k == 1 ==> BackoffDelay(RetriesAfterCloses(0, k)) == 2000
    ensures k >= 5 ==> BackoffDelay(RetriesAfterCloses(0, k)) == MaxDelayMs
  {
    if k > 0 {
      ClosesAfterOpen(k - 1);
    }
    if k >= 1 {
      BackoffDelayRange(RetriesAfterCloses(0, k));
    }
  }

  /** Across consecutive closes with no open in between, the scheduled
      delays never decrease. */
  lemma {:induction false} ConsecutiveDelaysNondecreasing(start: nat, k: nat)
    requires start <= MaxRetries
    ensures RetriesAfterCloses(start, k) <= MaxRetries
    ensures BackoffDelay(RetriesAfterCloses(start, k)) <= BackoffDelay(RetriesAfterCloses(start, k + 1))
  {
    if k > 0 {
      ConsecutiveDelaysNondecreasing(start, k - 1);
    }
    BackoffDelayMonotone(RetriesAfterCloses(start, k), RetriesAfterCloses(start, k + 1));
  }

  /** One mounting of the hook for a fixed `url`. */
  class ReconnectingSocket {
    /** The address; the empty string stands for any falsy `url`. */
    const url: string
    /** The effect's `mounted` flag; false once the cleanup has run, and
        false throughout when `url` is falsy (the effect does nothing then). */
    var mounted: bool
    /** `reconnectRef.current` */
    var retries: nat
    /** The delay of the reconnect timer that is scheduled and has neither
        fired nor been cleared (`timeoutId`). */
    var pendingDelay: Option<nat>
    /** How many sockets `connect()` has created. */
    var sockets: nat
    /** Whether the current socket can still deliver events (it has not
        delivered its close event yet). */
    var socketLive: bool
    /** How many times `close()` has been called on `wsRef.current`. */
    var closeRequests: nat
    /** The `message` state slot the hook returns. */
    var message: Value
    /** Closes since the last open (or since the hook was created). */
    ghost var closesSinceOpen: nat

    ghost predicate Valid()
      reads this
    {
      && retries == Min(closesSinceOpen, MaxRetries)
      && (url == "" ==> !mounted && sockets == 0 && !socketLive && pendingDelay.None?)
      && (url != "" ==> sockets >= 1)
      && !(socketLive && pendingDelay.Some?)
      && (pendingDelay.Some? ==> closesSinceOpen >= 1 && pendingDelay.value == BackoffDelay(retries))
    }

    /** Mounting: with a falsy `url` nothing happens; otherwise `connect()`
        creates the first socket. */
    constructor (url: string)
      ensures Valid()
      ensures this.url == url && message == Null && retries == 0
      ensures pendingDelay.None? && closeRequests == 0
      ensures url == "" ==> !mounted && sockets == 0 && !socketLive
      ensures url != "" ==> mounted && sockets == 1 && socketLive
    {
      this.url := url;
      message := Null;
      retries := 0;
      closesSinceOpen := 0;
      pendingDelay := None;
      closeRequests := 0;
      if url == "" {
        mounted := false;
        sockets := 0;
        socketLive := false;
      } else {
        mounted := true;
        sockets := 1;
        socketLive := true;
      }
    }

    /** `onopen`: the counter goes back to 0, so backoff restarts per outage. */
    method OnOpen()
      requires Valid() && socketLive
      modifies this`retries, this`closesSinceOpen
      ensures Valid()
      ensures retries == 0
    {
      retries := 0;
      closesSinceOpen := 0;
    }

    /** `onmessage`: while mounted, a frame that parses sets the slot to the
        parsed value and one that does not sets it to the raw text, so no
        frame is dropped; after the cleanup the slot never changes. */
    method OnMessage(data: string, parsed: Option<Value>)
      requires Valid() && socketLive
      modifies this`message
      ensures Valid()
      ensures mounted && parsed.Some? ==> message == parsed.value
      ensures mounted && parsed.None? ==> message == Str(data)
      ensures !mounted ==> message == old(message)
    {
      if parsed.Some? {
        if mounted {
          message := parsed.value;
        }
      } else {
        if mounted {
          message := Str(data);
        }
      }
    }

    /** `onclose`: bump the counter (capped at 30), then schedule `connect`
        after the backoff delay of the bumped counter. The `mounted` flag is
        not consulted. */
    method OnClose()
      requires Valid() && socketLive
      modifies this`retries, this`closesSinceOpen, this`pendingDelay, this`socketLive
      ensures Valid()
      ensures retries == Bumped(old(retries)) && retries <= MaxRetries && !socketLive
      ensures pendingDelay == Some(BackoffDelay(retries))
      ensures 2000 <= pendingDelay.value <= MaxDelayMs
      ensures closesSinceOpen >= 5 ==> pendingDelay.value == MaxDelayMs
      ensures old(closesSinceOpen) >= 1 ==> pendingDelay.value >= BackoffDelay(old(retries))
    {
      retries := Min(MaxRetries, retries + 1);
      closesSinceOpen := closesSinceOpen + 1;
      pendingDelay := Some(Min(MaxDelayMs, BaseDelayMs * Pow2(retries)));
      socketLive := false;
      BackoffDelayRange(retries);
      BackoffDelayMonotone(old(retries), retries);
    }

    /** `onerror`: ask the current socket to close; any exception from
        `close()` is swallowed. The counter is left to `onclose`. */
    method OnError()
      requires Valid() && socketLive
      modifies this`closeRequests
      ensures Valid()
      ensures closeRequests == old(closeRequests) + 1
    {
      closeRequests := closeRequests + 1;
    }

    /** The reconnect timer fires: `connect()` creates a new socket. */
    method OnReconnectTimer()
      requires Valid() && pendingDelay.Some?
      modifies this`pendingDelay, this`sockets, this`socketLive
      ensures Valid()
      ensures sockets == old(sockets) + 1 && socketLive && pendingDelay.None?
    {
      pendingDelay := None;
      sockets := sockets + 1;
      socketLive := true;
    }

    /** The cleanup closure: clear the flag, cancel a pending reconnect and
        close the current socket (errors swallowed). With a falsy `url` no
        cleanup was registered. */
    method Dispose()
      requires Valid()
      modifies this`mounted, this`pendingDelay, this`closeRequests
      ensures Valid()
      ensures !mounted && pendingDelay.None?
      ensures url != "" ==> closeRequests == old(closeRequests) + 1
      ensures url == "" ==> closeRequests == old(closeRequests)
    {
      if url != "" {
        mounted := false;
        pendingDelay := None;
        closeRequests := closeRequests + 1;
      }
    }
  }

  /** With a falsy `url` the hook creates no socket and schedules nothing. */
  method EmptyUrlScenario() returns (sockets: nat, scheduled: bool)
    ensures sockets == 0 && !scheduled
  {
    var hook := new ReconnectingSocket("");
    sockets := hook.sockets;
    scheduled := hook.pendingDelay.Some?;
  }

  /** The cleanup does not stop a reconnect: the close that the cleanup's
      `close()` provokes still schedules a timer, and that timer opens a
      second socket; its frames no longer reach the slot. */
  method ReconnectAfterCleanupScenario() returns (sockets: nat, delay: nat, slot: Value)
    ensures sockets == 2 && delay == 2000 && slot == Str("before")
  {
    var hook := new ReconnectingSocket("wss://stream");
    hook.OnOpen();
    hook.OnMessage("before", None);
    hook.Dispose();
    hook.OnClose();
    delay := hook.pendingDelay.value;
    hook.OnReconnectTimer();
    hook.OnMessage("after", None);
    sockets := hook.sockets;
    slot := hook.message;
  }

  /** Disposing while a reconnect is pending cancels it and leaves no live
      socket, so no event can create another connection. */
  method CleanupWhilePendingScenario() returns (canReconnect: bool)
    ensures !canReconnect
  {
    var hook := new ReconnectingSocket("wss://stream");
    hook.OnClose();
    hook.Dispose();
    canReconnect := hook.socketLive || hook.pendingDelay.Some?;
  }
}
