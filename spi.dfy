/** The SPI transport and the D/C line: spi_transfer_with_retry and write_to_display.
    The hardware is a value threaded through the calls. */
module Spi {
  import opened Config

  /** What the driver did, in order: the writes delivered and the delays computed. */
  datatype Event =
    /** One SPI transaction that succeeded, with the D/C level it was sent under
        (false: command, true: data). */
    | Write(dc: bool, data: seq<bv8>)
    /** A post-command delay the script interpreter computed; the source never sleeps on it. */
    | Delay(ms: nat)

  /** The driver's view of the hardware: the level last driven on the D/C line, the results
      the SPI ioctl gives (the k-th call of the session succeeds iff Succeeds(ioctl, k)), the
      number of ioctl calls made so far and the events so far: the writes delivered and the
      delays computed. */
  datatype Bus = Bus(dc: bool, ioctl: seq<bool>, attempts: nat, trace: seq<Event>)

  /** Whether the k-th ioctl call succeeds; past the end of the oracle every call fails. */
  predicate Succeeds(ioctl: seq<bool>, k: nat) {
    k < |ioctl| && ioctl[k]
  }

  /** gpio_set_value(GPIO_DC, level) */
  function SetDc(bus: Bus, level: bool): (b: Bus) {
    bus.(dc := level)
  }

  /** How a retry-wrapped transfer ends: whether it succeeded and how many ioctl calls it made. */
  datatype Attempts = Attempts(ok: bool, used: nat)

  /** The retry policy from the tried-th attempt on, for calls numbered from start. */
  function RetryFrom(ioctl: seq<bool>, start: nat, tried: nat): (a: Attempts)
    requires tried < MaxRetries
    decreases MaxRetries - tried
  {
    if Succeeds(ioctl, start + tried) then Attempts(true, tried + 1)
    else if tried + 1 == MaxRetries then Attempts(false, MaxRetries)
    else RetryFrom(ioctl, start, tried + 1)
  }

  /** The bounded retry of spi_transfer_with_retry, for calls numbered from start. */
  function Retry(ioctl: seq<bool>, start: nat): (a: Attempts) {
    RetryFrom(ioctl, start, 0)
  }

  /** The retry from the tried-th attempt on makes at most the remaining attempts, all calls
      before its last one fail, it succeeds exactly when its last call succeeds, and it makes
      every remaining attempt when it fails. */
  lemma {:induction false} RetryFromStopsAtFirstSuccess(ioctl: seq<bool>, start: nat, tried: nat)
    requires tried < MaxRetries
    ensures var a := RetryFrom(ioctl, start, tried);
      && tried < a.used <= MaxRetries
      && a.ok == Succeeds(ioctl, start + a.used - 1)
      && (!a.ok ==> a.used == MaxRetries)
      && (forall k :: start + tried <= k < start + a.used - 1 ==> !Succeeds(ioctl, k))
    decreases MaxRetries - tried
  {
    if !Succeeds(ioctl, start + tried) && tried + 1 < MaxRetries {
      RetryFromStopsAtFirstSuccess(ioctl, start, tried + 1);
    }
  }

  /** spi_transfer_with_retry's promise: at most MaxRetries calls, stopping at the first that
      succeeds, and success exactly when one of the MaxRetries calls from start would
      succeed. */
  lemma RetryStopsAtFirstSuccess(ioctl: seq<bool>, start: nat)
    ensures var a := Retry(ioctl, start);
      && 1 <= a.used <= MaxRetries
      && a.ok == Succeeds(ioctl, start + a.used - 1)
      && (!a.ok ==> a.used == MaxRetries)
      && (forall k :: start <= k < start + a.used - 1 ==> !Succeeds(ioctl, k))
      && (a.ok <==> exists k :: start <= k < start + MaxRetries && Succeeds(ioctl, k))
  {
    RetryFromStopsAtFirstSuccess(ioctl, start, 0);
    var a := Retry(ioctl, start);
    if !a.ok {
      assert forall k :: start <= k < start + MaxRetries ==> !Succeeds(ioctl, k);
    }
  }

  /** Whether a transfer was delivered, and the hardware afterwards. */
  datatype Sent = Sent(ok: bool, bus: Bus)

  /** One retry-wrapped transfer of data: the Events trace grows by the transaction only when
      it succeeded, and the attempts counter grows by the calls made. */
  function Transfer(bus: Bus, data: seq<bv8>): (r: Sent) {
    var a := Retry(bus.ioctl, bus.attempts);
    Sent(a.ok, bus.(attempts := bus.attempts + a.used,
                trace := if a.ok then bus.trace + [Write(bus.dc, data)] else bus.trace))
  }

  /** spi_transfer_with_retry: returns 0 after the first successful call, -1 after
      MaxRetries failed ones (the 1 ms sleep between attempts is not modelled). */
  method SpiTransferWithRetry(bus: Bus, data: seq<bv8>) returns (rc: int, bus': Bus)
    ensures rc == 0 || rc == -1
    ensures bus.attempts < bus'.attempts <= bus.attempts + MaxRetries
    ensures rc == 0 <==> exists k :: bus.attempts <= k < bus.attempts + MaxRetries && Succeeds(bus.ioctl, k)
    ensures rc == 0 ==> Succeeds(bus.ioctl, bus'.attempts - 1)
    ensures forall k :: bus.attempts <= k < bus'.attempts - 1 ==> !Succeeds(bus.ioctl, k)
    ensures Sent(rc == 0, bus') == Transfer(bus, data)
  {
    RetryStopsAtFirstSuccess(bus.ioctl, bus.attempts);
    bus' := bus;
    for i := 0 to MaxRetries
      invariant bus' == bus.(attempts := bus.attempts + i)
      invariant forall k :: bus.attempts <= k < bus.attempts + i ==> !Succeeds(bus.ioctl, k)
    {
      var ok := Succeeds(bus'.ioctl, bus'.attempts);
      bus' := bus'.(attempts := bus'.attempts + 1);
      if ok {
        rc := 0;
        bus' := bus'.(trace := bus'.trace + [Write(bus'.dc, data)]);
        return;
      }
    }
    rc := -1;
  }

  /** write_to_display: drive D/C to isData, then send the single byte. ok == false is the
      source's exit(1) after a failed write: the caller must stop. */
  method WriteToDisplay(bus: Bus, value: bv8, isData: bool) returns (ok: bool, bus': Bus)
    ensures Sent(ok, bus') == Transfer(SetDc(bus, isData), [value])
  {
    var rc;
    rc, bus' := SpiTransferWithRetry(SetDc(bus, isData), [value]);
    ok := rc >= 0;
  }

  /** What a transfer does to the hardware: it appends exactly the transaction to the trace
      when it succeeds and leaves the trace alone otherwise; it keeps the D/C level and the
      oracle; it uses between one and MaxRetries ioctl calls, all of them when it fails. */
  lemma TransferEffect(bus: Bus, data: seq<bv8>)
    ensures var r := Transfer(bus, data);
      && (r.ok ==> r.bus.trace == bus.trace + [Write(bus.dc, data)])
      && (!r.ok ==> r.bus.trace == bus.trace && r.bus.attempts == bus.attempts + MaxRetries)
      && r.bus.dc == bus.dc && r.bus.ioctl == bus.ioctl
      && bus.attempts < r.bus.attempts <= bus.attempts + MaxRetries
      && (r.ok ==> Succeeds(bus.ioctl, r.bus.attempts - 1))
      && (r.ok <==> exists k :: bus.attempts <= k < bus.attempts + MaxRetries && Succeeds(bus.ioctl, k))
  {
    RetryStopsAtFirstSuccess(bus.ioctl, bus.attempts);
  }

  /** A transfer made while the next ioctl call succeeds costs one attempt and is delivered. */
  lemma TransferFirstAttempt(bus: Bus, data: seq<bv8>)
    requires Succeeds(bus.ioctl, bus.attempts)
    ensures Transfer(bus, data) == Sent(true, bus.(attempts := bus.attempts + 1, trace := bus.trace + [Write(bus.dc, data)]))
  {}
}
