/** Stage 1: admission of raw selection marks and their normalisation. */
module MarkFilter {
  import opened Detector

  /** Marks below this detector confidence are discarded. */
  const ConfidenceFloor: real := 0.85

  /** The normalised mark (`Mark` in the source): the polygon is kept as it came. */
  datatype Mark = Mark(polygon: seq<Point>, confidence: real, state: string)

  function Abs(r: real): (a: real)
    ensures a >= 0.0 && (a == r || a == -r)
  {
    if r < 0.0 then -r else r
  }

  /** The filter predicate: state exactly "selected", confidence present and at
      least the floor, polygon an array of at least three points whose first
      point has both coordinates. */
  predicate Admit(m: RawMark) {
    && m.state == Some("selected")
    && m.confidence.Some? && m.confidence.value >= ConfidenceFloor
    && m.polygon.Some? && |m.polygon.value| >= 3
    && m.polygon.value[0].x.Some? && m.polygon.value[0].y.Some?
  }

  /** The mark has a reference point: the first polygon point, with both coordinates. */
  predicate HasRef(m: Mark) {
    |m.polygon| > 0 && m.polygon[0].x.Some? && m.polygon[0].y.Some?
  }

  /** A normalised mark as the later stages see it: one with a reference point. */
  type LocatedMark = m: Mark | HasRef(m) witness Mark([Point(Some(0.0), Some(0.0))], 0.0, "selected")

  function RefX(m: LocatedMark): real {
    m.polygon[0].x.value
  }

  function RefY(m: LocatedMark): real {
    m.polygon[0].y.value
  }

  /** What every normalised mark of an admitted raw mark satisfies. */
  predicate WellFormed(m: Mark) {
    && HasRef(m)
    && |m.polygon| >= 3
    && m.confidence >= ConfidenceFloor
    && m.state == "selected"
  }

  /** `.filter(...)`: keeps exactly the admitted marks, each as often as it occurs. */
  function Admitted(marks: seq<RawMark>): (r: seq<RawMark>)
    ensures forall i :: 0 <= i < |r| ==> Admit(r[i])
    ensures |r| <= |marks|
  {
    if marks == [] then []
    else if Admit(marks[0]) then [marks[0]] + Admitted(marks[1..]) else Admitted(marks[1..])
  }

  /** The filter keeps every admitted mark as often as it occurs and drops
      every other one. */
  lemma {:induction false} AdmittedCounts(marks: seq<RawMark>)
    ensures forall m :: multiset(Admitted(marks))[m] == if Admit(m) then multiset(marks)[m] else 0
  {
    if marks != [] {
      AdmittedCounts(marks[1..]);
      assert marks == [marks[0]] + marks[1..];
    }
  }

  /** `.map(...)` on one mark: the polygon as it is, `confidence ?? 0`, `state ?? "selected"`. */
  function Normalize(m: RawMark): (r: Mark)
    requires m.polygon.Some?
    ensures r.polygon == m.polygon.value
    ensures Admit(m) ==> WellFormed(r) && r.confidence == m.confidence.value
  {
    Mark(m.polygon.value, m.confidence.GetOr(0.0), m.state.GetOr("selected"))
  }

  function NormalizeAll(marks: seq<RawMark>): (r: seq<LocatedMark>)
    requires forall i :: 0 <= i < |marks| ==> Admit(marks[i])
    ensures |r| == |marks|
    ensures forall i :: 0 <= i < |marks| ==> Admit(marks[i]) && r[i] == Normalize(marks[i])
  {
    seq(|marks|, i requires 0 <= i < |marks| => assert Admit(marks[i]); Normalize(marks[i]))
  }

  /** The filter/map chain of one page, before sorting. */
  function Filtered(marks: seq<RawMark>): seq<LocatedMark> {
    NormalizeAll(Admitted(marks))
  }

  /** Admission: every kept mark is well formed and comes, with its polygon and
      confidence unchanged, from an admitted raw mark; every admitted raw mark
      is kept; nothing is added. */
  lemma FilteredAdmission(marks: seq<RawMark>)
    ensures |Filtered(marks)| <= |marks|
    ensures forall k <- Filtered(marks) :: WellFormed(k)
    ensures forall k <- Filtered(marks) :: exists m <- marks ::
              Admit(m) && k.polygon == m.polygon.value && k.confidence == m.confidence.value
    ensures forall m <- marks :: Admit(m) ==> Normalize(m) in Filtered(marks)
  {
    var a := Admitted(marks);
    var f := Filtered(marks);
    AdmittedCounts(marks);
    forall k | k in f
      ensures WellFormed(k)
      ensures exists m <- marks :: Admit(m) && k.polygon == m.polygon.value && k.confidence == m.confidence.value
    {
      var i :| 0 <= i < |f| && f[i] == k;
      assert a[i] in a;
      assert multiset(a)[a[i]] > 0;
      assert a[i] in marks;
    }
    forall m | m in marks && Admit(m)
      ensures Normalize(m) in f
    {
      assert multiset(a)[m] > 0;
      var i :| 0 <= i < |a| && a[i] == m;
      assert f[i] == Normalize(m);
    }
  }
}
