/** The room acoustics the plugin has: Euclidean distance, the camera leash, a cutoff above its re-add distance, and a
    constant-power pan under a falloff that is full within the reference distance and gone at the cutoff. */
module Acoustics {
  import opened Common
  import opened RoomMix

  /** What the mixer is tuned with beside the cull limits. */
  datatype Tuning = Tuning(leash: real, ref: real, falloff: real -> real)

  function Square(x: real): real {
    x * x
  }

  function SquaredDistance(a: Vec, b: Vec): real {
    Square(a.x - b.x) + Square(a.y - b.y) + Square(a.z - b.z)
  }

  /** The distance is the root of the squared one. */
  ghost predicate Measures(space: Space, a: Vec, b: Vec) {
    space.distance(a, b) >= 0.0 && Square(space.distance(a, b)) == SquaredDistance(a, b)
  }

  ghost predicate Euclidean(space: Space) {
    forall a, b :: Measures(space, a, b)
  }

  ghost predicate FallsOff(cutoff: real, tuning: Tuning) {
    && (forall d :: d <= tuning.ref ==> tuning.falloff(d) == 1.0)
    && (forall d :: tuning.ref < d < cutoff ==> 0.0 < tuning.falloff(d) < 1.0)
    && tuning.falloff(cutoff) == 0.0
  }

  /** Up to the cutoff the two gains carry the falloff's power, neither of them negative. */
  ghost predicate Pans(space: Space, tuning: Tuning) {
    forall lp, lh, sp :: space.distance(lp, sp) <= space.lim.cutoff ==>
      && space.shape(lp, lh, sp).0 >= 0.0 && space.shape(lp, lh, sp).1 >= 0.0
      && Square(space.shape(lp, lh, sp).0) + Square(space.shape(lp, lh, sp).1)
         == Square(tuning.falloff(space.distance(lp, sp)))
  }

  /** Every setting the plugin accepts. */
  ghost predicate Plugin(space: Space, tuning: Tuning) {
    && tuning.leash > 0.0 && 0.0 < tuning.ref < space.lim.cutoff && 0.0 < space.lim.readd < space.lim.cutoff
    && Euclidean(space) && FallsOff(space.lim.cutoff, tuning) && Pans(space, tuning)
  }

  // ---- The leash ----------------------------------------------------------------------------------------------------

  /** A snapshot's camera is within the leash of its avatar. */
  ghost predicate Leashed(space: Space, leash: real, own: Option<Geometry>) {
    own.None? || space.distance(own.value.lp, own.value.sp) <= leash
  }

  function Along(sp: Vec, lp: Vec, f: real): Vec {
    Vec(sp.x + f * (lp.x - sp.x), sp.y + f * (lp.y - sp.y), sp.z + f * (lp.z - sp.z))
  }

  /** The tick's snapshot of what a viewer reports: a camera beyond the leash is drawn in onto its sphere. */
  function Snapshot(space: Space, leash: real, sp: Vec, lp: Vec, lh: Heading): Geometry
    requires leash > 0.0
  {
    var d := space.distance(lp, sp);
    Geometry(sp, if d > leash then Along(sp, lp, leash / d) else lp, lh)
  }

  lemma ScaledSquare(f: real, x: real)
    ensures Square(f * x) == Square(f) * Square(x)
  {
    assert f * x * (f * x) == f * f * (x * x);
  }

  lemma AlongDistance(sp: Vec, lp: Vec, f: real)
    ensures SquaredDistance(Along(sp, lp, f), sp) == Square(f) * SquaredDistance(lp, sp)
  {
    ScaledAxis(sp.x, lp.x, f);
    ScaledAxis(sp.y, lp.y, f);
    ScaledAxis(sp.z, lp.z, f);
    Distributed(Square(f), Square(lp.x - sp.x), Square(lp.y - sp.y), Square(lp.z - sp.z));
  }

  lemma ScaledAxis(s: real, l: real, f: real)
    ensures Square(s + f * (l - s) - s) == Square(f) * Square(l - s)
  {
    assert s + f * (l - s) - s == f * (l - s);
    ScaledSquare(f, l - s);
  }

  lemma Distributed(k: real, a: real, b: real, c: real)
    ensures k * a + k * b + k * c == k * (a + b + c)
  {
  }

  lemma PositiveProduct(a: real, b: real)
    requires a > 0.0 && b > 0.0
    ensures a * b > 0.0
  {
  }

  lemma SquareOrder(x: real, y: real)
    requires x >= 0.0 && y >= 0.0
    ensures x <= y <==> Square(x) <= Square(y)
  {
    if x <= y {
      assert x * x <= x * y <= y * y;
    } else {
      PositiveProduct(x - y, x + y);
      assert x * x - y * y == (x - y) * (x + y);
    }
  }

  /** Every snapshot is leashed, and a report within the leash is taken as it is. */
  lemma SnapshotIsLeashed(space: Space, leash: real, sp: Vec, lp: Vec, lh: Heading)
    requires leash > 0.0 && Euclidean(space)
    ensures Leashed(space, leash, Some(Snapshot(space, leash, sp, lp, lh)))
    ensures space.distance(lp, sp) <= leash ==> Snapshot(space, leash, sp, lp, lh) == Geometry(sp, lp, lh)
  {
    var d := space.distance(lp, sp);
    if d > leash {
      var f := leash / d;
      assert Measures(space, lp, sp) && Measures(space, Along(sp, lp, f), sp);
      AlongDistance(sp, lp, f);
      ScaledSquare(f, d);
      assert f * d == leash;
      var drawn := space.distance(Along(sp, lp, f), sp);
      assert Square(drawn) == Square(leash);
      SquareOrder(drawn, leash);
    }
  }

  /** A camera beyond the leash is drawn straight towards its avatar, no further than the leash asks. */
  lemma SnapshotOnSphere(space: Space, leash: real, sp: Vec, lp: Vec, lh: Heading)
    requires leash > 0.0 && Euclidean(space) && space.distance(lp, sp) > leash
    ensures var g := Snapshot(space, leash, sp, lp, lh);
            && g.sp == sp && g.lh == lh && space.distance(g.lp, sp) == leash
            && exists f :: 0.0 < f < 1.0 && g.lp == Along(sp, lp, f)
  {
    var d := space.distance(lp, sp);
    var f := leash / d;
    Quotient(leash, d);
    DrawnDistance(space, sp, lp, f, leash);
    assert Snapshot(space, leash, sp, lp, lh).lp == Along(sp, lp, f);
  }

  lemma Quotient(a: real, b: real)
    requires 0.0 < a < b
    ensures 0.0 < a / b < 1.0 && a / b * b == a
  {
    var q := a / b;
    assert q * b == a;
    if q < 0.0 {
      PositiveProduct(0.0 - q, b);
    } else if q > 1.0 {
      PositiveProduct(q - 1.0, b);
    }
  }

  lemma DrawnDistance(space: Space, sp: Vec, lp: Vec, f: real, leash: real)
    requires Euclidean(space) && leash > 0.0 && f * space.distance(lp, sp) == leash
    ensures space.distance(Along(sp, lp, f), sp) == leash
  {
    var drawn, d := space.distance(Along(sp, lp, f), sp), space.distance(lp, sp);
    assert Measures(space, lp, sp) && Measures(space, Along(sp, lp, f), sp);
    AlongDistance(sp, lp, f);
    ScaledSquare(f, d);
    SquareOrder(drawn, leash);
    SquareOrder(leash, drawn);
  }

  /** A camera where its avatar stands is leashed. */
  lemma AtAvatar(space: Space, leash: real, p: Vec, lh: Heading)
    requires leash > 0.0 && Euclidean(space)
    ensures space.distance(p, p) == 0.0 && Leashed(space, leash, Some(Geometry(p, p, lh)))
  {
    assert Measures(space, p, p) && SquaredDistance(p, p) == 0.0;
    SquareOrder(space.distance(p, p), 0.0);
  }

  // ---- Far places ---------------------------------------------------------------------------------------------------

  /** A coordinate beyond every source's. */
  function FarX(peers: seq<Peer>): (x: real)
    ensures forall j :: 0 <= j < |peers| && peers[j].geo.Some? ==> peers[j].geo.value.sp.x <= x
  {
    if peers == [] then 0.0
    else
      var front, last := FarX(peers[..|peers| - 1]), peers[|peers| - 1];
      if last.geo.Some? && last.geo.value.sp.x > front then last.geo.value.sp.x else front
  }

  lemma FarApart(space: Space, a: Vec, b: Vec, d: real)
    requires Euclidean(space) && d >= 0.0 && a.x - b.x > d
    ensures space.distance(a, b) > d
  {
    var dx := a.x - b.x;
    assert Measures(space, a, b);
    SquareOrder(dx, d);
    assert Square(dx) <= SquaredDistance(a, b);
    SquareOrder(space.distance(a, b), d);
  }

  /** Some leashed camera has every source beyond the cutoff. */
  lemma FarPlace(space: Space, tuning: Tuning, peers: seq<Peer>, lh: Heading) returns (far: Geometry)
    requires Plugin(space, tuning)
    ensures Leashed(space, tuning.leash, Some(far))
    ensures forall j :: 0 <= j < |peers| && peers[j].geo.Some? ==>
              space.distance(far.lp, peers[j].geo.value.sp) > space.lim.cutoff
  {
    var p := Vec(FarX(peers) + space.lim.cutoff + 1.0, 0.0, 0.0);
    far := Geometry(p, p, lh);
    AtAvatar(space, tuning.leash, p, lh);
    forall j | 0 <= j < |peers| && peers[j].geo.Some?
      ensures space.distance(p, peers[j].geo.value.sp) > space.lim.cutoff
    {
      FarApart(space, p, peers[j].geo.value.sp, space.lim.cutoff);
    }
  }

  /** Neither gain exceeds one, and within the reference distance one of them is above zero. */
  lemma PanIsBounded(space: Space, tuning: Tuning, lp: Vec, lh: Heading, sp: Vec)
    requires Plugin(space, tuning) && space.distance(lp, sp) <= space.lim.cutoff
    ensures var (l, r) := space.shape(lp, lh, sp);
            && 0.0 <= l <= 1.0 && 0.0 <= r <= 1.0
            && (space.distance(lp, sp) <= tuning.ref ==> Square(l) + Square(r) == 1.0 && (l > 0.0 || r > 0.0))
  {
    var d := space.distance(lp, sp);
    var l, r := space.shape(lp, lh, sp).0, space.shape(lp, lh, sp).1;
    var f := tuning.falloff(d);
    assert 0.0 <= f <= 1.0;
    SquareOrder(f, 1.0);
    assert Square(l) >= 0.0 && Square(r) >= 0.0;
    SquareOrder(l, 1.0);
    SquareOrder(r, 1.0);
  }
}
