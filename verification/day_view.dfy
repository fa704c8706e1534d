/** The day view: ten fixed hour rows, 9 to 18. Row `h` looks its appointments up under the key
    `h.toString()`, while the buckets are keyed by the time's text before the colon. A time
    written with a leading zero, such as "09:15", has the key "09", which no row asks for. */
module DayView {
  import Text
  import HourGrid
  import Appointments
  import BookingForm

  type Appointment = Appointments.Appointment

  /** The second and later entries of a row: 8px up, 12px in, a shadow and a "Compartido"
      badge. */
  const DayStyle: HourGrid.StackStyle := HourGrid.StackStyle(-8, 12, "Compartido")

  /** `Array.from({ length: 10 }, (_, i) => i + 9)`. */
  function Hours(): (hours: seq<nat>)
    ensures |hours| == 10
    ensures forall i :: 0 <= i < 10 ==> hours[i] == 9 + i
  {
    seq(10, i requires 0 <= i < 10 => i + 9)
  }

  /** The lookup key of the row for hour `h`: its decimal text, without leading zeros. */
  function RowKey(h: nat): (k: string)
    ensures |k| >= 1 && (h >= 1 ==> k[0] != '0')
    ensures Text.AllDigits(k) && Text.DecimalValue(k) == h
  {
    Text.NatToString(h)
  }

  datatype Row = Row(hour: nat, entries: seq<HourGrid.Placement>)

  /** The rows of the view, each holding the stacked bucket under its key, if there is one. */
  function Rows(xs: seq<Appointment>): (rows: seq<Row>)
    ensures |rows| == 10
    ensures forall i :: 0 <= i < 10 ==> rows[i].hour == 9 + i
    ensures forall i :: 0 <= i < 10 ==>
      rows[i].entries == (if RowKey(9 + i) in HourGrid.Buckets(xs)
        then HourGrid.Stack(HourGrid.Buckets(xs)[RowKey(9 + i)], DayStyle) else [])
  {
    var m := HourGrid.Buckets(xs);
    var hours := Hours();
    seq(10, i requires 0 <= i < 10 =>
      var k := RowKey(hours[i]);
      Row(hours[i], if k in m then HourGrid.Stack(m[k], DayStyle) else []))
  }

  predicate DrawnIn(row: Row, a: Appointment) {
    exists i :: 0 <= i < |row.entries| && row.entries[i].appointment == a
  }

  /** Row `i` draws exactly the day's appointments whose hour key is its hour without leading
      zeros. */
  lemma DrawnIffKeyIsRowKey(xs: seq<Appointment>, a: Appointment, i: int)
    requires 0 <= i < 10
    ensures DrawnIn(Rows(xs)[i], a) <==> a in xs && HourGrid.HourKey(a) == RowKey(Hours()[i])
  {
    var m := HourGrid.Buckets(xs);
    var k := RowKey(Hours()[i]);
    if k in m {
      HourGrid.StackedAppointments(m[k], DayStyle, a);
    }
  }

  /** An appointment is drawn at all exactly when its key is one of "9" to "18". */
  lemma DrawnIffKeyIsAnHour(xs: seq<Appointment>, a: Appointment)
    requires a in xs
    ensures (exists i :: 0 <= i < 10 && DrawnIn(Rows(xs)[i], a))
      <==> exists h :: 9 <= h <= 18 && HourGrid.HourKey(a) == RowKey(h)
  {
    var k := HourGrid.HourKey(a);
    var rows := Rows(xs);
    forall i | 0 <= i < 10
      ensures DrawnIn(rows[i], a) <==> k == RowKey(9 + i)
    {
      DrawnIffKeyIsRowKey(xs, a, i);
    }
    if exists h :: 9 <= h <= 18 && k == RowKey(h) {
      var h :| 9 <= h <= 18 && k == RowKey(h);
      assert DrawnIn(rows[h - 9], a);
    }
    if exists i :: 0 <= i < 10 && DrawnIn(rows[i], a) {
      var i :| 0 <= i < 10 && DrawnIn(rows[i], a);
      assert k == RowKey(9 + i);
    }
  }

  /** A drawn appointment is drawn in one row only, since no two rows share a key. */
  lemma DrawnInOneRow(xs: seq<Appointment>, a: Appointment, i: int, j: int)
    requires 0 <= i < 10 && 0 <= j < 10
    requires DrawnIn(Rows(xs)[i], a) && DrawnIn(Rows(xs)[j], a)
    ensures i == j
  {
    DrawnIffKeyIsRowKey(xs, a, i);
    DrawnIffKeyIsRowKey(xs, a, j);
    Text.NatToStringInjective(Hours()[i], Hours()[j]);
  }

  /** A time whose hour is written with a leading zero is never drawn. */
  lemma LeadingZeroNeverDrawn(xs: seq<Appointment>, a: Appointment, i: int)
    requires 0 <= i < 10
    requires |a.time| >= 1 && a.time[0] == '0'
    ensures !DrawnIn(Rows(xs)[i], a)
  {
    DrawnIffKeyIsRowKey(xs, a, i);
    var k := HourGrid.HourKey(a);
    assert |k| >= 1 && k[0] == '0';
    assert RowKey(Hours()[i])[0] != '0';
  }

  /** A key naming an hour before 9 or after 18 is never drawn either. */
  lemma OutsideOpeningHoursNeverDrawn(xs: seq<Appointment>, a: Appointment, h: nat, i: int)
    requires 0 <= i < 10
    requires h < 9 || h > 18
    requires HourGrid.HourKey(a) == RowKey(h)
    ensures !DrawnIn(Rows(xs)[i], a)
  {
    DrawnIffKeyIsRowKey(xs, a, i);
    assert Text.DecimalValue(RowKey(h)) != Text.DecimalValue(RowKey(Hours()[i]));
  }

  /** The sample appointment at "09:15" is missing from its day's view, whatever else the day
      holds. */
  lemma SampleAtNineFifteenNotDrawn(xs: seq<Appointment>, i: int)
    requires 0 <= i < 10
    ensures Appointments.SampleAppointments[3].time == "09:15"
    ensures !DrawnIn(Rows(xs)[i], Appointments.SampleAppointments[3])
  {
    LeadingZeroNeverDrawn(xs, Appointments.SampleAppointments[3], i);
  }

  /** The booking form's first two time slots, "09:00" and "09:30", are written with a leading
      zero, so an appointment booked at either of them never appears in the day view. */
  lemma NineOClockSlotsNeverDrawn(xs: seq<Appointment>, a: Appointment, i: int, slot: nat)
    requires 0 <= i < 10
    requires slot < 2 && a.time == BookingForm.Times[slot]
    ensures !DrawnIn(Rows(xs)[i], a)
  {
    LeadingZeroNeverDrawn(xs, a, i);
  }
}
