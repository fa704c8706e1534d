/** What the week and day views share: the appointments of one day grouped by the text before
    the `:` of their time, and the stacking of the appointments that share a group. */
module HourGrid {
  import opened Wrappers
  import Seqs
  import Text
  import Appointments

  type Appointment = Appointments.Appointment

  /** `appointment.time.split(':')[0]`: the time's text before its first colon, leading zeros
      and all. */
  function HourKey(a: Appointment): (k: string)
    ensures k == Text.Split(a.time, ':')[0]
    ensures ':' !in k && |k| <= |a.time| && k == a.time[..|k|]
  {
    Text.BeforeFirstIsFirstPart(a.time, ':');
    Text.BeforeFirst(a.time, ':')
  }

  /** `appointmentsByHour`: each key present holds the day's appointments with that key, in
      the order they were pushed, which is list order. */
  function Buckets(xs: seq<Appointment>): (m: map<string, seq<Appointment>>)
    ensures forall k :: k in m <==> exists a :: a in xs && HourKey(a) == k
    ensures forall k :: k in m ==> m[k] == Seqs.Group(xs, HourKey, k)
  {
    Seqs.GroupBy(xs, HourKey)
  }

  /** Every appointment of the day lands in the bucket of its own key and in no other. */
  lemma InExactlyOneBucket(xs: seq<Appointment>, a: Appointment)
    requires a in xs
    ensures var m := Buckets(xs);
      && HourKey(a) in m && a in m[HourKey(a)]
      && forall k :: k in m && k != HourKey(a) ==> a !in m[k]
  {
  }

  function BucketSizes(m: map<string, seq<Appointment>>, ks: seq<string>): int
    requires forall k :: k in ks ==> k in m
    decreases |ks|
  {
    if ks == [] then 0 else |m[ks[0]]| + BucketSizes(m, ks[1..])
  }

  /** The buckets hold as many appointments as the day has: nothing is lost or doubled. */
  lemma BucketSizesSumToTotal(xs: seq<Appointment>, ks: seq<string>)
    requires Seqs.Distinct(ks)
    requires forall k :: k in ks <==> k in Buckets(xs)
    ensures BucketSizes(Buckets(xs), ks) == |xs|
  {
    var m := Buckets(xs);
    SizesAreGroupSums(xs, m, ks);
    Seqs.GroupsSumToWhole(xs, HourKey, Seqs.One, ks);
    Seqs.SumOfOnes(xs);
  }

  lemma {:induction false} SizesAreGroupSums(xs: seq<Appointment>, m: map<string, seq<Appointment>>, ks: seq<string>)
    requires forall k :: k in ks ==> k in m && m[k] == Seqs.Group(xs, HourKey, k)
    ensures BucketSizes(m, ks) == Seqs.SumOfGroups(xs, HourKey, Seqs.One, ks)
    decreases |ks|
  {
    if ks != [] {
      Seqs.SumOfOnes(Seqs.Group(xs, HourKey, ks[0]));
      SizesAreGroupSums(xs, m, ks[1..]);
    }
  }

  /** How a view draws the second and later entries of a bucket: pulled up by `marginTopPx`,
      indented by `marginLeftPx`, with a shadow and the badge text. */
  datatype StackStyle = StackStyle(marginTopPx: int, marginLeftPx: int, badge: string)

  /** One drawn entry of a bucket. */
  datatype Placement = Placement(
    appointment: Appointment,
    zIndex: int,
    marginTopPx: int,
    marginLeftPx: int,
    shadow: bool,
    badge: Option<string>)

  /** The entry at position `i` of its bucket. */
  function Place(a: Appointment, i: nat, style: StackStyle): (p: Placement)
    ensures p.appointment == a && p.zIndex == i + 1
    ensures p.shadow <==> i > 0
    ensures p.badge == (if i > 0 then Some(style.badge) else None)
    ensures p.marginTopPx == (if i > 0 then style.marginTopPx else 0)
    ensures p.marginLeftPx == (if i > 0 then style.marginLeftPx else 0)
  {
    if i == 0 then Placement(a, 1, 0, 0, false, None)
    else Placement(a, i + 1, style.marginTopPx, style.marginLeftPx, true, Some(style.badge))
  }

  /** A bucket drawn in order: each entry sits above the ones before it, and only the first is
      drawn plain, without offset, shadow or badge. */
  function Stack(bucket: seq<Appointment>, style: StackStyle): (r: seq<Placement>)
    ensures |r| == |bucket|
    ensures forall i :: 0 <= i < |r| ==> r[i].appointment == bucket[i]
    ensures forall i :: 0 <= i < |r| ==> r[i].zIndex == i + 1
    ensures forall i, j :: 0 <= i < j < |r| ==> 1 <= r[i].zIndex < r[j].zIndex
    ensures forall i :: 0 <= i < |r| ==> (r[i].badge.Some? <==> i > 0) && (r[i].shadow <==> i > 0)
    ensures |r| > 0 ==> r[0].marginTopPx == 0 && r[0].marginLeftPx == 0
    ensures forall i :: 0 < i < |r| ==>
      r[i].badge == Some(style.badge) && r[i].marginTopPx == style.marginTopPx
      && r[i].marginLeftPx == style.marginLeftPx
  {
    seq(|bucket|, i requires 0 <= i < |bucket| => Place(bucket[i], i, style))
  }

  /** Stacking keeps exactly the bucket's appointments. */
  lemma StackedAppointments(bucket: seq<Appointment>, style: StackStyle, a: Appointment)
    ensures (exists i :: 0 <= i < |Stack(bucket, style)| && Stack(bucket, style)[i].appointment == a) <==> a in bucket
  {
    var r := Stack(bucket, style);
    if a in bucket {
      var i :| 0 <= i < |bucket| && bucket[i] == a;
      assert r[i].appointment == a;
    }
  }
}
