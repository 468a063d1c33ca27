/** The automatic-rotation settings of the main window: the saved unit name
    mapped to a combo-box index, the spin-box value loaded from the config,
    the interval in milliseconds with its `INT_MAX` clamp, the timer
    restart rule, and what is persisted back to the config object. */
module AutoRotate {
  import opened Wrappers
  import opened Json

  const IntMax: int := 0x7FFF_FFFF
  const IntMin: int := -0x8000_0000
  const Int64Max: int := 0x7FFF_FFFF_FFFF_FFFF
  const Int64Min: int := -0x8000_0000_0000_0000

  /** The unit combo box items, in index order. */
  const Units: seq<string> := ["seconds", "minutes", "hours", "on restart"]
  const OnRestart: nat := 3

  /** The spin box range. */
  const SpinMin: int := 0
  const SpinMax: int := 1000000

  predicate IsInt32(x: int) { IntMin <= x <= IntMax }
  predicate IsInt64(x: int) { Int64Min <= x <= Int64Max }

  /** The saved unit name mapped to a combo index: the three timed units map
      to their own index and anything else to "on restart". */
  function UnitIndex(saved: string): (i: nat)
    ensures i < |Units|
    ensures i < OnRestart <==> saved in Units[..OnRestart]
    ensures i < OnRestart ==> Units[i] == saved
  {
    assert Units[..OnRestart] == ["seconds", "minutes", "hours"];
    if saved == "seconds" then 0
    else if saved == "minutes" then 1
    else if saved == "hours" then 2
    else OnRestart
  }

  /** Every combo item maps back to its own index. */
  lemma UnitIndexRoundTrip(i: nat)
    requires i < |Units|
    ensures UnitIndex(Units[i]) == i
  {
  }

  /** Milliseconds per unit; an unknown unit leaves the value as it is. */
  function UnitFactor(unit: string): nat {
    if unit == "seconds" then 1000
    else if unit == "minutes" then 60 * 1000
    else if unit == "hours" then 60 * 60 * 1000
    else 1
  }

  /** The `qint64` product `val * factor`; it cannot overflow for an `int` value. */
  function Msec64(val: int, unit: string): (m: int)
    requires IsInt32(val)
    ensures IsInt64(m)
    ensures val > 0 ==> m >= val
  {
    val * UnitFactor(unit)
  }

  /** The timer interval for a spin value and unit, or None when automatic
      rotation is disabled ("on restart", or a value that is not positive).
      The product is clamped to `INT_MAX` before the narrowing cast. */
  function IntervalMs(val: int, unit: string): (r: Option<int>)
    requires IsInt32(val)
    ensures r.None? <==> unit == "on restart" || val <= 0
    ensures r.Some? ==> 1 <= r.value <= IntMax && IsInt32(r.value)
    ensures r.Some? && Msec64(val, unit) <= IntMax ==> r.value == Msec64(val, unit)
    ensures r.Some? && Msec64(val, unit) > IntMax ==> r.value == IntMax
  {
    if unit == "on restart" || val <= 0 then None
    else
      var msec := Msec64(val, unit);
      Some(if msec > IntMax then IntMax else msec)
  }

  /** Whole hours beyond 596 already reach the clamp; 596 hours do not. */
  lemma HoursClamp()
    ensures IntervalMs(596, "hours") == Some(596 * 3600000)
    ensures IntervalMs(597, "hours") == Some(IntMax)
  {
  }

  datatype Timer = Timer(active: bool, interval: int)

  /** The timer after `applyAutoSettings`: stopped when disabled; otherwise
      running with the computed interval (restarted only when the interval
      changed or it was stopped). */
  function ApplyTimer(t: Timer, val: int, unit: string): (r: Timer)
    requires IsInt32(val)
    ensures IntervalMs(val, unit).None? ==> !r.active && r.interval == t.interval
    ensures IntervalMs(val, unit).Some? ==> r.active && r.interval == IntervalMs(val, unit).value
  {
    match IntervalMs(val, unit)
    case None => Timer(false, t.interval)
    case Some(ms) => if t.interval != ms || !t.active then Timer(true, ms) else t
  }

  /** Applying the same settings twice leaves the timer as the first
      application did. */
  lemma ApplyTimerIdempotent(t: Timer, val: int, unit: string)
    requires IsInt32(val)
    ensures ApplyTimer(ApplyTimer(t, val, unit), val, unit) == ApplyTimer(t, val, unit)
  {
  }

  /** The config object written back: the file's object with `auto_interval`
      and `auto_unit` replaced and every other key kept. */
  function Persist(cfg: Members, val: int, unit: string): (r: Members)
    ensures Get(r, "auto_interval") == Some(JNum(val))
    ensures Get(r, "auto_unit") == Some(JStr(unit))
    ensures forall k :: k != "auto_interval" && k != "auto_unit" ==> Get(r, k) == Get(cfg, k)
  {
    var c1 := Set(cfg, "auto_interval", JNum(val));
    GetSetAll(cfg, "auto_interval", JNum(val));
    GetSetAll(c1, "auto_unit", JStr(unit));
    Set(c1, "auto_unit", JStr(unit))
  }

  /** `QJsonValue::toInt(default)` on an integral number. */
  function ToInt(j: Json, default: int): int {
    if j.JNum? && IsInt32(j.n) then j.n else default
  }

  /** `QJsonValue::toString(default)`. */
  function ToStrOr(j: Json, default: string): string {
    if j.JStr? then j.s else default
  }

  /** `QSpinBox::setValue` clamps into the box's range. */
  function ClampSpin(v: int): (r: int)
    ensures SpinMin <= r <= SpinMax
    ensures SpinMin <= v <= SpinMax ==> r == v
  {
    if v < SpinMin then SpinMin else if v > SpinMax then SpinMax else v
  }

  /** The spin value and combo index restored from the config at start-up:
      `auto_interval` defaults to 15 and `auto_unit` to "minutes". */
  function LoadSettings(cfg: Members): (r: (int, nat))
    ensures SpinMin <= r.0 <= SpinMax && r.1 < |Units|
    ensures !HasKey(cfg, "auto_interval") ==> r.0 == 15
    ensures !HasKey(cfg, "auto_unit") ==> r.1 == 1
  {
    (ClampSpin(ToInt(Field(cfg, "auto_interval"), 15)), UnitIndex(ToStrOr(Field(cfg, "auto_unit"), "minutes")))
  }

  /** What is persisted is what the next start restores: the spin value and
      the selected combo item come back unchanged. */
  lemma PersistLoadRoundTrip(cfg: Members, val: int, i: nat)
    requires SpinMin <= val <= SpinMax && i < |Units|
    ensures LoadSettings(Persist(cfg, val, Units[i])) == (val, i)
  {
    var c := Persist(cfg, val, Units[i]);
    assert Field(c, "auto_interval") == JNum(val);
    assert ToInt(Field(c, "auto_interval"), 15) == val;
    assert Field(c, "auto_unit") == JStr(Units[i]);
    assert ToStrOr(Field(c, "auto_unit"), "minutes") == Units[i];
    UnitIndexRoundTrip(i);
  }
}
