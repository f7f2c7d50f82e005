/**
 * StudentClient: the participant's connection controller.  One attempt is
 * in flight at a time when started through connect; a failed attempt
 * schedules a retry after 1, 2, 4, ... 512 seconds, at most ten in a row;
 * success resets the count; shutdown is final.  The connect future's
 * completion, the firing of a scheduled retry and the loss of the channel
 * are events from the network layer.
 */
module ReconnectControl {
  const MaxRetries: nat := 10

  /** 1 << n, which for n < 31 is 2 to the n in a Java int. */
  function Pow2(n: nat): (r: nat)
    ensures r >= 1
  {
    if n == 0 then 1 else 2 * Pow2(n - 1)
  }

  /** The delays of an unbroken run of n failures: 1, 2, 4, ... seconds. */
  function Backoff(n: nat): (r: seq<nat>)
    ensures |r| == n
    ensures forall i :: 0 <= i < n ==> r[i] == Pow2(i)
  {
    if n == 0 then [] else Backoff(n - 1) + [Pow2(n - 1)]
  }

  function Sum(s: seq<nat>): nat {
    if s == [] then 0 else Sum(s[..|s| - 1]) + s[|s| - 1]
  }

  /** A run of n failures waits 2^n - 1 seconds in total. */
  lemma {:induction false} BackoffTotal(n: nat)
    ensures Sum(Backoff(n)) + 1 == Pow2(n)
  {
    if n > 0 {
      BackoffTotal(n - 1);
      assert Backoff(n)[..n - 1] == Backoff(n - 1);
    }
  }

  /** After ten failures the client has waited 1023 seconds, the longest gap being 512. */
  lemma FullBackoff()
    ensures Backoff(MaxRetries) == [1, 2, 4, 8, 16, 32, 64, 128, 256, 512]
    ensures Sum(Backoff(MaxRetries)) == 1023
  {
    BackoffTotal(MaxRetries);
    assert Pow2(10) == 1024;
  }

  /** The ports an InetSocketAddress accepts; bootstrap.connect throws IllegalArgumentException for any other. */
  predicate IsPort(p: int) {
    0 <= p <= 0xFFFF
  }

  class StudentClient {
    var isShutdown: bool
    var isConnecting: bool
    /** channel != null && channel.isActive(). */
    var channelActive: bool
    var host: string
    var port: int
    var retryCount: nat
    /** Every bootstrap.connect issued, with its target. */
    var attempts: seq<(string, int)>
    /** Every reconnection scheduled, by its delay in seconds. */
    var delays: seq<nat>
    /** Scheduled reconnections that have not fired yet. */
    var pending: nat
    /** disableReconnection was called (see README). */
    var reconnectionDisabled: bool
    /** Where the current run of failures began in delays. */
    ghost var runStart: nat

    /** The delays since the last success are exactly the backoff sequence, and it never exceeds ten. */
    ghost predicate Valid()
      reads this
    {
      && retryCount <= MaxRetries
      && runStart <= |delays|
      && delays[runStart..] == Backoff(retryCount)
      && (isShutdown ==> pending == 0)
    }

    constructor()
      ensures Valid()
      ensures !isShutdown && !isConnecting && !channelActive && retryCount == 0
      ensures attempts == [] && delays == [] && pending == 0 && !reconnectionDisabled
    {
      isShutdown := false;
      isConnecting := false;
      channelActive := false;
      host := "";
      port := 0;
      retryCount := 0;
      attempts := [];
      delays := [];
      pending := 0;
      reconnectionDisabled := false;
      runStart := 0;
    }

    /**
     * connect: refused after shutdown, while connecting and while
     * connected; otherwise the address is recorded and doConnect runs,
     * whose exception for a bad port (threw) reaches the caller.
     */
    method Connect(host: string, port: int) returns (threw: bool)
      requires Valid()
      modifies this
      ensures Valid()
      ensures isShutdown == old(isShutdown) && channelActive == old(channelActive) && retryCount == old(retryCount)
      ensures delays == old(delays) && pending == old(pending) && reconnectionDisabled == old(reconnectionDisabled)
      ensures old(isShutdown) || old(isConnecting) || old(channelActive) ==>
        !threw && attempts == old(attempts) && isConnecting == old(isConnecting)
      ensures !(old(isShutdown) || old(isConnecting) || old(channelActive)) ==>
        && isConnecting && this.host == host && this.port == port
        && (threw <==> !IsPort(port))
        && attempts == old(attempts) + (if IsPort(port) then [(host, port)] else [])
    {
      threw := false;
      if isShutdown {
        return;
      }
      if isConnecting || channelActive {
        return;
      }
      this.host := host;
      this.port := port;
      threw := DoConnect();
    }

    /**
     * doConnect: marks an attempt in flight, then issues it.  A port
     * outside 0..65535 makes bootstrap.connect throw before any listener
     * is attached (threw): no attempt goes out and, as nothing will ever
     * clear it, the client stays connecting.
     */
    method DoConnect() returns (threw: bool)
      requires Valid()
      modifies this
      ensures Valid()
      ensures isConnecting
      ensures threw <==> !IsPort(port)
      ensures attempts == old(attempts) + (if IsPort(port) then [(host, port)] else [])
      ensures isShutdown == old(isShutdown) && channelActive == old(channelActive) && retryCount == old(retryCount)
      ensures delays == old(delays) && pending == old(pending) && reconnectionDisabled == old(reconnectionDisabled)
      ensures host == old(host) && port == old(port)
    {
      isConnecting := true;
      if !IsPort(port) {
        return true;
      }
      attempts := attempts + [(host, port)];
      return false;
    }

    /** The connect future's listener: not connecting any more; success resets the count, failure schedules a retry. */
    method ConnectCompleted(success: bool)
      requires Valid()
      modifies this
      ensures Valid()
      ensures !isConnecting
      ensures isShutdown == old(isShutdown) && attempts == old(attempts) && reconnectionDisabled == old(reconnectionDisabled)
      ensures success ==> channelActive && retryCount == 0 && delays == old(delays) && pending == old(pending)
      ensures !success ==> channelActive == old(channelActive)
      ensures !success && !old(isShutdown) && old(retryCount) < MaxRetries ==>
        delays == old(delays) + [Pow2(old(retryCount))] && retryCount == old(retryCount) + 1 && pending == old(pending) + 1
      ensures !success && (old(isShutdown) || old(retryCount) == MaxRetries) ==>
        delays == old(delays) && retryCount == old(retryCount) && pending == old(pending)
    {
      isConnecting := false;
      if success {
        channelActive := true;
        retryCount := 0;
        runStart := |delays|;
      } else {
        ScheduleReconnect();
      }
    }

    /** scheduleReconnect: nothing when shut down or connecting, nothing after ten; otherwise one retry after 2^retryCount seconds. */
    method ScheduleReconnect()
      requires Valid()
      modifies this
      ensures Valid()
      ensures isShutdown == old(isShutdown) && isConnecting == old(isConnecting) && channelActive == old(channelActive)
      ensures attempts == old(attempts) && reconnectionDisabled == old(reconnectionDisabled)
      ensures old(isShutdown) || old(isConnecting) || old(retryCount) == MaxRetries ==>
        delays == old(delays) && retryCount == old(retryCount) && pending == old(pending)
      ensures !(old(isShutdown) || old(isConnecting) || old(retryCount) == MaxRetries) ==>
        delays == old(delays) + [Pow2(old(retryCount))] && retryCount == old(retryCount) + 1 && pending == old(pending) + 1
    {
      if isShutdown || isConnecting {
        return;
      }
      if retryCount < MaxRetries {
        var delay := Pow2(retryCount);
        assert delays[runStart..] + [delay] == (delays + [delay])[runStart..];
        delays := delays + [delay];
        retryCount := retryCount + 1;
        pending := pending + 1;
      }
    }

    /**
     * A scheduled doConnect fires; its exception ends the task (threw).
     * Shutting the event loop group down cancels what is still scheduled,
     * so nothing fires after shutdown.
     */
    method FireScheduled() returns (threw: bool)
      requires Valid()
      modifies this
      ensures Valid()
      ensures old(pending) == 0 ==> !threw && attempts == old(attempts) && pending == 0 && isConnecting == old(isConnecting)
      ensures old(pending) > 0 ==>
        && pending == old(pending) - 1 && isConnecting && (threw <==> !IsPort(port))
        && attempts == old(attempts) + (if IsPort(port) then [(host, port)] else [])
      ensures isShutdown == old(isShutdown) && channelActive == old(channelActive) && retryCount == old(retryCount)
      ensures delays == old(delays) && reconnectionDisabled == old(reconnectionDisabled)
      ensures host == old(host) && port == old(port)
      ensures old(isShutdown) ==> !threw && attempts == old(attempts) && isConnecting == old(isConnecting)
    {
      threw := false;
      if pending > 0 {
        pending := pending - 1;
        threw := DoConnect();
      }
    }

    /** The channel goes inactive (closed by either side). */
    method ChannelClosed()
      requires Valid()
      modifies this
      ensures Valid()
      ensures !channelActive
      ensures isShutdown == old(isShutdown) && isConnecting == old(isConnecting) && retryCount == old(retryCount)
      ensures attempts == old(attempts) && delays == old(delays) && pending == old(pending)
      ensures reconnectionDisabled == old(reconnectionDisabled)
    {
      channelActive := false;
    }

    /**
     * shutdown: the flag is set first, then an active channel is closed, and
     * shutting the event loop group down cancels every scheduled retry.
     */
    method Shutdown()
      requires Valid()
      modifies this
      ensures Valid()
      ensures isShutdown && !channelActive
      ensures isConnecting == old(isConnecting) && retryCount == old(retryCount)
      ensures attempts == old(attempts) && delays == old(delays) && pending == 0
      ensures reconnectionDisabled == old(reconnectionDisabled)
    {
      isShutdown := true;
      // shutdownGracefully cancels the retries still scheduled on the group
      pending := 0;
      if channelActive {
        ChannelClosed();
      }
    }

    /** The handler's hook after a refused login. */
    method DisableReconnection()
      requires Valid()
      modifies this
      ensures Valid()
      ensures reconnectionDisabled
      ensures isShutdown == old(isShutdown) && isConnecting == old(isConnecting) && channelActive == old(channelActive)
      ensures retryCount == old(retryCount) && attempts == old(attempts) && delays == old(delays) && pending == old(pending)
    {
      reconnectionDisabled := true;
    }
  }
}
