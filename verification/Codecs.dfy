/** Electricity meter and thermostat readings as extended values. */
module Codecs {
  import opened Bytes
  import opened ExtendedValues

  // ----- electricity meter, version 3 -----

  const EV_METER_V3: byte := 14
  const METER_BASE := 144
  const METER_COUNT_AT := 140
  const MEASUREMENT_SIZE := 62
  const MEASUREMENT_COUNT := 5
  const METER_SIZE := METER_BASE + MEASUREMENT_SIZE * MEASUREMENT_COUNT

  /** The memory of a meter reading; the number of measurements in use stands at METER_COUNT_AT. */
  type Meter = m: seq<byte> | |m| == METER_SIZE witness Zeros(METER_SIZE)

  function MeasurementsOf(m: Meter): int {
    Signed(U32At(m, METER_COUNT_AT))
  }

  function MeterToExtended(m: Meter): Option<Ev> {
    var count := MeasurementsOf(m);
    if count > MEASUREMENT_COUNT || count < 0 then None
    else
      var size := METER_BASE + MEASUREMENT_SIZE * count;
      Some(RawEv.Ev(EV_METER_V3, size, m[..size] + Zeros(VALUE_SIZE - size)))
  }

  /** The expected size is the sum in the code, reduced to a signed 32-bit number and compared as an unsigned one. */
  function ExtendedToMeter(e: Ev): Option<Meter> {
    if e.kind != EV_METER_V3 || e.size == 0 || e.size > METER_SIZE then None
    else
      var m: Meter := e.value[..e.size] + Zeros(METER_SIZE - e.size);
      var count := MeasurementsOf(m);
      var sum := METER_BASE + MEASUREMENT_SIZE * count;
      var expected := if count <= MEASUREMENT_COUNT then Signed(sum % TWO_TO_32) else 0;
      if e.size != expected % TWO_TO_32 then None else Some(m)
  }

  /** Encoding refuses exactly the counts that are out of range; decoding what it yields gives the reading back, the
      measurements not in use zeroed. */
  lemma {:induction false} MeterRoundTrip(m: Meter)
    ensures MeterToExtended(m).Some? <==> 0 <= MeasurementsOf(m) <= MEASUREMENT_COUNT
    ensures MeterToExtended(m).Some? ==>
              var used := METER_BASE + MEASUREMENT_SIZE * MeasurementsOf(m);
              ExtendedToMeter(MeterToExtended(m).value) == Some(m[..used] + Zeros(METER_SIZE - used))
  {
    if MeterToExtended(m).Some? {
      var e := MeterToExtended(m).value;
      var m' := e.value[..e.size] + Zeros(METER_SIZE - e.size);
      assert e.value[..e.size] == m[..e.size];
      assert forall i :: 0 <= i < METER_BASE ==> m'[i] == m[i];
    }
  }

  /** What an encoded reading looks like: its type, 144 bytes and 62 for each measurement in use, and zeros behind
      them. */
  lemma {:induction false} MeterEncodingSays(m: Meter)
    requires MeterToExtended(m).Some?
    ensures var e, size := MeterToExtended(m).value, 144 + 62 * MeasurementsOf(m);
            && e.kind == 14 && e.size == size <= 454 && e.value[..size] == m[..size]
            && forall i :: size <= i < |e.value| ==> e.value[i] == 0
  {
    ZerosAreZero(VALUE_SIZE - (METER_BASE + MEASUREMENT_SIZE * MeasurementsOf(m)));
  }

  /** The count of measurements is a signed number, least significant byte first, at offset 140. */
  lemma {:induction false} CountStands(m: Meter)
    ensures var u := m[140] as int + 256 * m[141] as int + 65536 * m[142] as int + 16777216 * m[143] as int;
            MeasurementsOf(m) == if u < 0x8000_0000 then u else u - 0x1_0000_0000
  {
  }

  /** The count field of an extended value that is long enough to have one. */
  function CountField(e: Ev): int {
    Signed(U32At(e.value, METER_COUNT_AT))
  }

  /** The bytes of a value that the meter decoder copies, behind zeros. */
  function CopiedMeter(e: Ev): (m: Meter)
    requires e.size <= METER_SIZE
    ensures m == e.value[..e.size] + Zeros(METER_SIZE - e.size)
    ensures e.size >= METER_BASE ==> MeasurementsOf(m) == CountField(e)
    ensures e.size < METER_BASE ==> 0 <= MeasurementsOf(m)
  {
    var m := e.value[..e.size] + Zeros(METER_SIZE - e.size);
    assert e.size >= METER_BASE ==> forall i :: 0 <= i < METER_BASE ==> m[i] == e.value[i];
    assert e.size < METER_BASE ==> m[METER_COUNT_AT + 3] == 0;
    m
  }

  /** The size expected for a count, as the code computes and compares it. */
  lemma ExpectedSize(count: int)
    ensures var sum := METER_BASE + MEASUREMENT_SIZE * count;
            && Signed(sum % TWO_TO_32) % TWO_TO_32 == sum % TWO_TO_32
            && (0 <= count <= MEASUREMENT_COUNT ==> sum % TWO_TO_32 == sum <= METER_SIZE)
  {
  }

  /** Exactly which values decode. Sizes that cut the count field short are always rejected; a count of zero or more
      decides as intended, by size == 144 + 62 * count with at most 5 measurements; a negative count is accepted when
      the product wraps around to the size. */
  lemma {:induction false} MeterDecoderIsExact(e: Ev)
    ensures ExtendedToMeter(e).Some? <==>
            && e.kind == EV_METER_V3 && METER_BASE <= e.size <= METER_SIZE && CountField(e) <= MEASUREMENT_COUNT
            && e.size == if CountField(e) >= 0 then METER_BASE + MEASUREMENT_SIZE * CountField(e)
                         else (METER_BASE + MEASUREMENT_SIZE * CountField(e)) % TWO_TO_32
    ensures ExtendedToMeter(e).Some? ==> MeasurementsOf(ExtendedToMeter(e).value) == CountField(e)
  {
    if e.kind == EV_METER_V3 && 0 < e.size <= METER_SIZE {
      ExpectedSize(MeasurementsOf(CopiedMeter(e)));
    }
  }

  /** What a value decodes to: its bytes, and zeros where it has none. */
  lemma {:induction false} MeterDecodesTo(e: Ev)
    requires ExtendedToMeter(e).Some?
    ensures var m := ExtendedToMeter(e).value;
            m[..e.size] == e.value[..e.size] && forall i :: e.size <= i < |m| ==> m[i] == 0
  {
    ZerosAreZero(METER_SIZE - e.size);
  }

  /** So a decoded reading has a sensible count exactly if its count field is not negative... */
  lemma {:induction false} DecodedCountIsSensible(e: Ev)
    requires ExtendedToMeter(e).Some?
    ensures var count := MeasurementsOf(ExtendedToMeter(e).value);
            0 <= count <= MEASUREMENT_COUNT && e.size == METER_BASE + MEASUREMENT_SIZE * count <==> CountField(e) >= 0
  {
  }

  /** ... and the decoder does not check that: a count of -2^31 with no measurements is accepted. */
  lemma {:induction false} NegativeCountDecodes()
    ensures var m := Zeros(METER_COUNT_AT) + Le32(0x8000_0000);
            var e := RawEv.Ev(EV_METER_V3, METER_BASE, m + Zeros(VALUE_SIZE - METER_BASE));
            ExtendedToMeter(e).Some? && MeasurementsOf(ExtendedToMeter(e).value) == -0x8000_0000
  {
  }

  // ----- thermostat -----

  const EV_THERMOSTAT: byte := 30

  /** The optional parts of a thermostat reading, in the order in which they lie in memory. */
  datatype Part = MeasuredTemperatures | PresetTemperatures | Flags | Values | Time | Schedule

  const FIELDS_SIZE := 1
  const THERMOSTAT_SIZE := 246

  function PartSize(p: Part): nat {
    match p
    case MeasuredTemperatures => 20
    case PresetTemperatures => 20
    case Flags => 16
    case Values => 16
    case Time => 4
    case Schedule => 169
  }

  /** Where a part begins, behind the byte of field flags. */
  function PartAt(p: Part): nat {
    match p
    case MeasuredTemperatures => 1
    case PresetTemperatures => 21
    case Flags => 41
    case Values => 57
    case Time => 73
    case Schedule => 77
  }

  function PartMask(p: Part): byte {
    match p
    case MeasuredTemperatures => 0x01
    case PresetTemperatures => 0x02
    case Flags => 0x04
    case Values => 0x08
    case Time => 0x10
    case Schedule => 0x20
  }

  /** The memory of a thermostat reading: the flags of the parts in use, then the parts. */
  type Thermostat = t: seq<byte> | |t| == THERMOSTAT_SIZE witness Zeros(THERMOSTAT_SIZE)

  predicate Has(t: Thermostat, p: Part) {
    t[0] / PartMask(p) % 2 == 1
  }

  function PartOf(t: Thermostat, p: Part): seq<byte> {
    t[PartAt(p)..PartAt(p) + PartSize(p)]
  }

  /** The number of bytes kept: parts are cut off from the end until one is in use. */
  function ThermostatSize(t: Thermostat): nat {
    if Has(t, Schedule) then THERMOSTAT_SIZE
    else if Has(t, Time) then THERMOSTAT_SIZE - 169
    else if Has(t, Values) then THERMOSTAT_SIZE - 169 - 4
    else if Has(t, Flags) then THERMOSTAT_SIZE - 169 - 4 - 16
    else if Has(t, PresetTemperatures) then THERMOSTAT_SIZE - 169 - 4 - 16 - 16
    else if Has(t, MeasuredTemperatures) then THERMOSTAT_SIZE - 169 - 4 - 16 - 16 - 20
    else THERMOSTAT_SIZE - 169 - 4 - 16 - 16 - 20 - 20
  }

  function ThermostatToExtended(t: Thermostat): Ev {
    var size := ThermostatSize(t);
    RawEv.Ev(EV_THERMOSTAT, size, t[..size] + Zeros(VALUE_SIZE - size))
  }

  function ExtendedToThermostat(e: Ev): Option<Thermostat> {
    if e.kind != EV_THERMOSTAT || e.size == 0 || e.size > THERMOSTAT_SIZE then None
    else Some(e.value[..e.size] + Zeros(THERMOSTAT_SIZE - e.size))
  }

  /** What an encoded reading looks like: its type, the first bytes of the reading, and zeros behind them. */
  lemma {:induction false} ThermostatEncodingSays(t: Thermostat)
    ensures var e := ThermostatToExtended(t);
            && e.kind == 30 && 1 <= e.size <= 246 && e.value[..e.size] == t[..e.size]
            && forall i :: e.size <= i < |e.value| ==> e.value[i] == 0
  {
    ZerosAreZero(VALUE_SIZE - ThermostatSize(t));
  }

  /** Exactly which values decode, and to what: the type must be right and the size between 1 and the reading's;
      what is not there is zero. */
  lemma {:induction false} ThermostatDecoderIsExact(e: Ev)
    ensures ExtendedToThermostat(e).Some? <==> e.kind == 30 && 1 <= e.size <= 246
    ensures ExtendedToThermostat(e).Some? ==>
              var t := ExtendedToThermostat(e).value;
              t[..e.size] == e.value[..e.size] && forall i :: e.size <= i < |t| ==> t[i] == 0
  {
    if e.size <= THERMOSTAT_SIZE {
      ZerosAreZero(THERMOSTAT_SIZE - e.size);
    }
  }

  /** The encoding ends right behind the last part in use: it keeps every part in use, and is as short as can be. */
  lemma {:induction false} ThermostatSizeIsExact(t: Thermostat)
    ensures forall p: Part :: Has(t, p) ==> PartAt(p) + PartSize(p) <= ThermostatSize(t)
    ensures ThermostatSize(t) == FIELDS_SIZE ||
            exists p: Part :: Has(t, p) && ThermostatSize(t) == PartAt(p) + PartSize(p)
  {
  }

  /** Decoding an encoded reading restores the flags and every part in use; what was cut off is zero. */
  lemma {:induction false} ThermostatRoundTrip(t: Thermostat)
    ensures var r := ExtendedToThermostat(ThermostatToExtended(t));
            && r.Some? && r.value[0] == t[0]
            && (forall p: Part :: Has(t, p) ==> PartOf(r.value, p) == PartOf(t, p))
            && r.value[ThermostatSize(t)..] == Zeros(THERMOSTAT_SIZE - ThermostatSize(t))
  {
  }
}
