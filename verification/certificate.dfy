/** When a certificate is renewed and when it is reported, in the nanoseconds of
    Go's time.Duration, whose arithmetic wraps or saturates at 64 bits. */
module Certificates {
  import opened Common

  const MAX_DURATION: int := 0x7fff_ffff_ffff_ffff
  const MIN_DURATION: int := -0x8000_0000_0000_0000

  /** A product of two durations wraps around. */
  function Wrap(x: int): (d: int)
    ensures MIN_DURATION <= d <= MAX_DURATION
    ensures MIN_DURATION <= x <= MAX_DURATION ==> d == x
  {
    (x - MIN_DURATION) % 0x1_0000_0000_0000_0000 + MIN_DURATION
  }

  /** The difference of two times saturates. */
  function Sub(t: int, u: int): (d: int)
    ensures MIN_DURATION <= d <= MAX_DURATION
  {
    if t - u > MAX_DURATION then MAX_DURATION else if t - u < MIN_DURATION then MIN_DURATION else t - u
  }

  /** Wrapping keeps the lowest 64 bits, saturating goes to the nearest duration. */
  lemma DurationsExactly(x: int, t: int, u: int, d: int)
    requires MIN_DURATION <= d <= MAX_DURATION
    ensures Wrap(x) == d <==> (x - d) % 0x1_0000_0000_0000_0000 == 0
    ensures if t - u <= d then Sub(t, u) <= d else Sub(t, u) >= d
    ensures t - u == d ==> Sub(t, u) == d
  {
  }

  function Seconds(n: int): int {
    Wrap(n * SECOND)
  }

  predicate Expires(expireDate: int, now: int, warningSeconds: int) {
    Sub(expireDate, now) <= Seconds(warningSeconds)
  }

  datatype Result = Wait(duration: int) | ZeroDate | HasExpired

  /** `expireDate` is absent when the certificate has the zero time. */
  datatype Date = Zero | Date(at: int)

  /** The clock is read twice: at `checked` to see whether the certificate has
      expired, at `now` for the duration. */
  function DurationToNextRenewal(expireDate: Date, checked: int, now: int, warningSeconds: int): Result {
    if expireDate.Zero? then ZeroDate
    else if expireDate.at < checked then HasExpired
    else
      var renewDate := expireDate.at + Wrap(-warningSeconds * SECOND);
      var duration := Sub(renewDate, now);
      Wait(if duration < 0 then 0 else duration)
  }

  predicate FitsDuration(warningSeconds: int) {
    MIN_DURATION < warningSeconds * SECOND <= MAX_DURATION
  }

  predicate IsLeastDelay(d: int, expireDate: int, now: int, warningSeconds: int) {
    && 0 <= d
    && Expires(expireDate, now + d, warningSeconds)
    && forall t | now <= t < now + d :: !Expires(expireDate, t, warningSeconds)
  }

  /** A period that fits never reaches the saturation points, so saturation does
      not blur the comparison. */
  lemma ExpiresExactly(expireDate: int, t: int, warningSeconds: int)
    requires FitsDuration(warningSeconds)
    ensures Expires(expireDate, t, warningSeconds) <==> expireDate - t <= warningSeconds * SECOND
  {
    assert MAX_DURATION % SECOND != 0;
  }

  /** Without a date there is nothing to wait for, and none has expired; a date that
      lies before the first reading has; any other gives a duration. */
  lemma RenewalCases(expireDate: Date, checked: int, now: int, warningSeconds: int)
    ensures var r := DurationToNextRenewal(expireDate, checked, now, warningSeconds);
            && (r == ZeroDate <==> expireDate == Zero)
            && (r == HasExpired <==> expireDate.Date? && expireDate.at < checked)
            && (r.Wait? <==> expireDate.Date? && checked <= expireDate.at)
            && (r.Wait? ==> 0 <= r.duration <= MAX_DURATION)
  {
  }

  /** The renewal duration is the least delay after which the certificate counts
      as expiring, exactly when the renewal lies less than some 292 years ahead,
      the longest duration there is. */
  lemma RenewalIsExact(expireDate: int, checked: int, now: int, warningSeconds: int)
    requires FitsDuration(warningSeconds) && checked <= now
    ensures var r := DurationToNextRenewal(Date(expireDate), checked, now, warningSeconds);
            if expireDate < checked then r == HasExpired
            else
              r.Wait? && (IsLeastDelay(r.duration, expireDate, now, warningSeconds)
                          <==> expireDate - warningSeconds * SECOND - now <= MAX_DURATION)
  {
    var w := warningSeconds * SECOND;
    assert -warningSeconds * SECOND == -w;
    var r := DurationToNextRenewal(Date(expireDate), checked, now, warningSeconds);
    if r.Wait? {
      ExpiresExactly(expireDate, now + r.duration, warningSeconds);
    }
    forall t ensures Expires(expireDate, t, warningSeconds) <==> expireDate - t <= w {
      ExpiresExactly(expireDate, t, warningSeconds);
    }
  }

  /** A certificate that needs renewal a second after the longest duration: the
      duration returned falls short, and it does not count as expiring then. */
  lemma RenewalFallsShort(now: int)
    ensures var expireDate := now + MAX_DURATION + SECOND;
            && DurationToNextRenewal(Date(expireDate), now, now, 0) == Wait(MAX_DURATION)
            && !Expires(expireDate, now + MAX_DURATION, 0)
  {
  }

  /** A period that does not fit acts as the one with the same lowest 64 bits, for the
      warning and for the renewal. */
  lemma OverflowActsAs(warningSeconds: int, w: int, back: int, expireDate: int, checked: int, now: int)
    requires MIN_DURATION <= w <= MAX_DURATION && (warningSeconds * SECOND - w) % 0x1_0000_0000_0000_0000 == 0
    requires MIN_DURATION <= back <= MAX_DURATION && (-warningSeconds * SECOND - back) % 0x1_0000_0000_0000_0000 == 0
    ensures Expires(expireDate, now, warningSeconds) <==> Sub(expireDate, now) <= w
    ensures checked <= expireDate ==>
              var d := Sub(expireDate + back, now);
              DurationToNextRenewal(Date(expireDate), checked, now, warningSeconds) == Wait(if d < 0 then 0 else d)
  {
    DurationsExactly(warningSeconds * SECOND, 0, 0, w);
    DurationsExactly(-warningSeconds * SECOND, 0, 0, back);
  }

  /** A warning period of some 585 years acts as one of less than a second. */
  lemma LongPeriodIsShort(expireDate: int, now: int)
    ensures Expires(expireDate, now, 18446744074) <==> Sub(expireDate, now) <= 290448384
  {
    OverflowActsAs(18446744074, 290448384, -290448384, expireDate, now, now);
  }

  // ---------------------------------------------------------------- reporting

  datatype Kind = Deployed | Warning | Error

  datatype Line = Line(certificate: string, expired: bool)

  /** What is reported about two certificates: a status and, per expiring
      certificate, whether it expires or has expired. */
  datatype Report = Report(kind: Kind, message: seq<Line>)

  /** The clock as it is read during one report: when each certificate is tested
      for expiring, then when each is tested for having expired. */
  datatype Readings = Readings(tlsExpiring: int, ecertExpiring: int, tlsExpired: int, ecertExpired: int)

  predicate InOrder(c: Readings) {
    c.tlsExpiring <= c.ecertExpiring <= c.tlsExpired <= c.ecertExpired
  }

  /** Found expiring, and a little later found to have expired. */
  predicate Expired(expireDate: int, expiring: int, expired: int, warningSeconds: int) {
    Expires(expireDate, expiring, warningSeconds) && expireDate < expired
  }

  predicate AnyExpired(tlsDate: int, ecertDate: int, c: Readings, warningSeconds: int) {
    || Expired(tlsDate, c.tlsExpiring, c.tlsExpired, warningSeconds)
    || Expired(ecertDate, c.ecertExpiring, c.ecertExpired, warningSeconds)
  }

  predicate AnyExpires(tlsDate: int, ecertDate: int, c: Readings, warningSeconds: int) {
    Expires(tlsDate, c.tlsExpiring, warningSeconds) || Expires(ecertDate, c.ecertExpiring, warningSeconds)
  }

  /** The status is assembled step by step, TLS certificate first. */
  method CheckCertificatesForExpire(tlsDate: int, ecertDate: int, c: Readings, warningSeconds: int) returns (r: Report)
    ensures r.kind == KindOf(tlsDate, ecertDate, c, warningSeconds)
    ensures var tls, ecert := Expires(tlsDate, c.tlsExpiring, warningSeconds), Expires(ecertDate, c.ecertExpiring, warningSeconds);
            && r.message == (if tls then [Line("tls", tlsDate < c.tlsExpired)] else [])
                            + (if ecert then [Line("ecert", ecertDate < c.ecertExpired)] else [])
            && (r.kind == Deployed <==> !tls && !ecert)
            && (r.kind == Error <==> (tls && tlsDate < c.tlsExpired) || (ecert && ecertDate < c.ecertExpired))
  {
    var tlsExpiring := Expires(tlsDate, c.tlsExpiring, warningSeconds);
    var ecertExpiring := Expires(ecertDate, c.ecertExpiring, warningSeconds);
    if !tlsExpiring && !ecertExpiring {
      return Report(Deployed, []);
    }
    var kind := Warning;
    var message := [];
    if tlsExpiring {
      if tlsDate < c.tlsExpired {
        kind := Error;
        message := message + [Line("tls", true)];
      } else {
        message := message + [Line("tls", false)];
      }
    }
    if ecertExpiring {
      if ecertDate < c.ecertExpired {
        kind := Error;
        message := message + [Line("ecert", true)];
      } else {
        message := message + [Line("ecert", false)];
      }
    }
    return Report(kind, message);
  }

  function KindOf(tlsDate: int, ecertDate: int, c: Readings, warningSeconds: int): Kind {
    if AnyExpired(tlsDate, ecertDate, c, warningSeconds) then Error
    else if AnyExpires(tlsDate, ecertDate, c, warningSeconds) then Warning
    else Deployed
  }

  function Severity(k: Kind): nat {
    match k
    case Deployed => 0
    case Warning => 1
    case Error => 2
  }

  /** For fixed certificates and any warning period, overflowing ones included,
      the status only escalates from one report to the next. */
  lemma StatusOnlyEscalates(tlsDate: int, ecertDate: int, c: Readings, d: Readings, warningSeconds: int)
    requires InOrder(c) && InOrder(d) && c.ecertExpired <= d.tlsExpiring
    ensures Severity(KindOf(tlsDate, ecertDate, c, warningSeconds))
            <= Severity(KindOf(tlsDate, ecertDate, d, warningSeconds))
  {
  }

  /** With a non-negative period that fits, a certificate that has expired when
      the report begins makes it an error, and an error means that one has expired
      when it ends; with a negative period it may go unreported. */
  lemma ExpiredIsError(tlsDate: int, ecertDate: int, c: Readings, warningSeconds: int)
    requires 0 <= warningSeconds && FitsDuration(warningSeconds) && InOrder(c)
    ensures tlsDate < c.tlsExpiring || ecertDate < c.tlsExpiring ==> KindOf(tlsDate, ecertDate, c, warningSeconds) == Error
    ensures KindOf(tlsDate, ecertDate, c, warningSeconds) == Error ==> tlsDate < c.ecertExpired || ecertDate < c.ecertExpired
    ensures KindOf(tlsDate, ecertDate, c, warningSeconds) == Error
            <==> || (tlsDate < c.tlsExpired && tlsDate - c.tlsExpiring <= warningSeconds * SECOND)
                 || (ecertDate < c.ecertExpired && ecertDate - c.ecertExpiring <= warningSeconds * SECOND)
  {
    ExpiresExactly(tlsDate, c.tlsExpiring, warningSeconds);
    ExpiresExactly(ecertDate, c.ecertExpiring, warningSeconds);
  }
}
