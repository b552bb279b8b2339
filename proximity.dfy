/**
 * Proximity classification: how close the smoothed hand centre is, horizontally,
 * to the virtual boundary line (main.py, lines 106-119).
 */
module Proximity {
  import opened Optional
  import opened Tracking

  /** The x-coordinate of the vertical boundary line. */
  const BoundaryX: int := 300

  /** A hand farther than this from the boundary is safe. */
  const WarningDistance: nat := 120

  /** A hand at most this far from the boundary is in danger. */
  const DangerDistance: nat := 50

  datatype Zone = Safe | Warning | Danger

  /** The severity order SAFE < WARNING < DANGER. */
  function Severity(z: Zone): nat {
    match z
    case Safe => 0
    case Warning => 1
    case Danger => 2
  }

  /** Horizontal distance from the boundary line. */
  function Distance(x: int): (d: nat)
    ensures d == x - BoundaryX || d == BoundaryX - x
  {
    if x >= BoundaryX then x - BoundaryX else BoundaryX - x
  }

  /** The zone computed for one frame; no tracked hand is never a danger. */
  function Classify(center: Option<Point>): (z: Zone)
    ensures center.None? ==> z == Safe
  {
    match center
    case None => Safe
    case Some(p) =>
      var d := Distance(p.x);
      if d > WarningDistance then Safe
      else if d > DangerDistance then Warning
      else Danger
  }

  /** The three distance bands, each in both directions. */
  lemma ClassifyBands(p: Point)
    ensures Classify(Some(p)) == Safe <==> Distance(p.x) > 120
    ensures Classify(Some(p)) == Warning <==> 50 < Distance(p.x) <= 120
    ensures Classify(Some(p)) == Danger <==> Distance(p.x) <= 50
  {
  }

  /** A hand nearer the boundary is at least as severe as a hand farther away. */
  lemma ClassifyMonotone(p: Point, q: Point)
    requires Distance(p.x) <= Distance(q.x)
    ensures Severity(Classify(Some(p))) >= Severity(Classify(Some(q)))
  {
  }

  /** Only the distance counts: both sides of the line and any height classify alike. */
  lemma ClassifySymmetric(d: int, y1: int, y2: int)
    ensures Classify(Some(Point(BoundaryX + d, y1))) == Classify(Some(Point(BoundaryX - d, y2)))
  {
  }
}
