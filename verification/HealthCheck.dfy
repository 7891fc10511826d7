/** The heartbeat state of one data server (`HealthCheckClient`, include/dfs/nameserver.h). */
module HealthCheck {

  /** Clock ticks in a second. */
  const TICKS := 1_000_000_000

  /** TIMEOUT and CHECK_BASE, in whole seconds. */
  datatype Times = Times(timeout: nat, checkBase: nat)

  /** The values of the shipped configuration. */
  const CONFIGURED := Times(60, 8)

  datatype LivingState = Unknown | NotReady | Living | Dead

  datatype Client = Client(state: LivingState, timestamp: nat, gid: int)

  datatype Answer = RpcError | NotServing | Serving

  /** One heartbeat: the clock before the call, its outcome, the clock after it. */
  datatype Beat = Beat(sent: nat, answer: Answer, received: nat)

  /** NOT_READY counts as living. */
  predicate IsLiving(c: Client) {
    c.state == Living || c.state == NotReady
  }

  /** `duration_cast<seconds>` truncates toward zero. */
  function ElapsedSeconds(now: nat, since: nat): int {
    if since <= now then (now - since) / TICKS else -((since - now) / TICKS)
  }

  predicate IsTimeout(c: Client, now: nat, seconds: nat) {
    ElapsedSeconds(now, c.timestamp) > seconds
  }

  /** `check`. */
  function Checked(c: Client, b: Beat, t: Times): Client {
    if c.state == NotReady then c.(timestamp := b.sent)
    else if !IsTimeout(c, b.sent, t.checkBase) then c
    else
      match b.answer
      case RpcError => c.(state := Dead)
      case NotServing => c.(state := Unknown)
      case Serving => c.(state := Living, timestamp := b.received)
  }

  datatype Verdict = Keep | Unavail | Delete

  /** What a cluster does with a server after its check. */
  function Judge(c: Client, b: Beat, t: Times): Verdict {
    var c' := Checked(c, b, t);
    if IsLiving(c') then Keep
    else if IsTimeout(c', b.received, t.timeout) then Delete
    else Unavail
  }

  /** A server is deleted only if its last check failed and more than TIMEOUT seconds have passed
      since its last refresh; and a living one can only be judged so by a heartbeat that failed now. */
  lemma DeleteOnlyAfterTimeout(c: Client, b: Beat, t: Times)
    requires Judge(c, b, t) == Delete
    ensures b.received - c.timestamp >= (t.timeout + 1) * TICKS
    ensures c.state != NotReady && Checked(c, b, t).timestamp == c.timestamp
    ensures IsLiving(c) ==> b.answer != Serving
    ensures Checked(c, b, t).state == Dead || Checked(c, b, t).state == Unknown
  {
    var elapsed := b.received - c.timestamp;
    assert elapsed >= 0;
    assert elapsed / TICKS >= t.timeout + 1;
    assert elapsed >= (elapsed / TICKS) * TICKS;
  }

  /** The verdict in terms of the heartbeat alone. A server that is still uploading is kept, and so is
      one that answers, or that is living and not yet due for a check. Any other one is deleted
      when more than TIMEOUT whole seconds have passed since its last refresh, and unavailable until then. */
  lemma VerdictIff(c: Client, b: Beat, t: Times)
    requires c.timestamp <= b.sent <= b.received
    ensures var due := b.sent - c.timestamp >= (t.checkBase + 1) * TICKS;
            var keep := c.state == NotReady || if due then b.answer == Serving else c.state == Living;
            && (Judge(c, b, t) == Keep <==> keep)
            && (Judge(c, b, t) == Delete <==> !keep && b.received - c.timestamp >= (t.timeout + 1) * TICKS)
  {
    WholeSeconds(b.sent - c.timestamp, t.checkBase);
    WholeSeconds(b.received - c.timestamp, t.timeout);
  }

  lemma WholeSeconds(elapsed: nat, seconds: nat)
    ensures elapsed / TICKS > seconds <==> elapsed >= (seconds + 1) * TICKS
  {
    assert elapsed == (elapsed / TICKS) * TICKS + elapsed % TICKS;
  }

  /** A check refreshes a server that is still uploading, or that answers; no other check does. */
  lemma RefreshedIff(c: Client, b: Beat, t: Times)
    ensures Checked(c, b, t).gid == c.gid
    ensures c.state == NotReady ==> Checked(c, b, t) == Client(NotReady, b.sent, c.gid)
    ensures c.state != NotReady ==>
              Checked(c, b, t).timestamp ==
              if IsTimeout(c, b.sent, t.checkBase) && b.answer == Serving then b.received else c.timestamp
  {
  }

  /** How far apart rounds may be: TIMEOUT - CHECK_BASE seconds, or not at all if that is negative. */
  function SafeGap(t: Times): nat {
    if t.timeout <= t.checkBase then 0 else (t.timeout - t.checkBase) * TICKS
  }

  /** A living client refreshed less than CHECK_BASE + 1 seconds before `last` and now judged by
      readings within `gap` ticks of `last` cannot be timed out if the gap leaves room. */
  lemma FreshIsNotDeleted(c: Client, b: Beat, t: Times, last: nat, gap: nat)
    requires IsLiving(c) && last < c.timestamp + (t.checkBase + 1) * TICKS
    requires b.sent <= b.received <= last + gap && gap <= SafeGap(t)
    ensures Judge(c, b, t) != Delete
  {
    if Judge(c, b, t) == Delete {
      DeleteOnlyAfterTimeout(c, b, t);
      assert IsTimeout(c, b.sent, t.checkBase);
      TimeoutMeans(c, b.sent, t.checkBase);
    }
  }

  /** Elapsed seconds are truncated, so a timeout means a whole second more than its limit. */
  lemma TimeoutMeans(c: Client, now: nat, seconds: nat)
    requires IsTimeout(c, now, seconds)
    ensures now >= c.timestamp + (seconds + 1) * TICKS
  {
    var elapsed := now - c.timestamp;
    assert elapsed >= (elapsed / TICKS) * TICKS;
  }

  /** After a check a living client has been refreshed less than CHECK_BASE + 1 seconds before it. */
  lemma CheckedIsFresh(c: Client, b: Beat, t: Times, begin: nat)
    requires begin <= b.sent <= b.received && IsLiving(Checked(c, b, t))
    ensures begin < Checked(c, b, t).timestamp + (t.checkBase + 1) * TICKS
  {
    if c.state != NotReady && !IsTimeout(c, b.sent, t.checkBase) && c.timestamp <= b.sent {
      var e := b.sent - c.timestamp;
      assert e < (e / TICKS + 1) * TICKS <= (t.checkBase + 1) * TICKS;
    }
  }

  class HealthCheckClient {
    var state: LivingState
    var timestamp: nat
    var gid: int

    function Value(): Client
      reads this
    {
      Client(state, timestamp, gid)
    }

    constructor (now: nat, gid: int, state: LivingState)
      ensures Value() == Client(state, now, gid)
    {
      this.state, this.timestamp, this.gid := state, now, gid;
    }

    method Check(b: Beat, t: Times)
      modifies this
      ensures Value() == Checked(old(Value()), b, t)
    {
      if state == NotReady {
        timestamp := b.sent;
        return;
      }
      if !IsTimeout(Value(), b.sent, t.checkBase) {
        return;
      }
      if b.answer == RpcError {
        state := Dead;
        return;
      }
      if b.answer != Serving {
        state := Unknown;
        return;
      }
      state := Living;
      timestamp := b.received;
    }

    /** `reconnect` and `set_ready`. */
    method Refresh(now: nat)
      modifies this
      ensures Value() == Client(Living, now, old(gid))
    {
      state, timestamp := Living, now;
    }
  }
}
