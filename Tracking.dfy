/** Position of a body for an observer and an instant, and the twelve-hour
    trajectory the dashboard plots.  Instants are whole minutes on an abstract
    UTC axis; the astronomy itself (observer construction, light-time,
    apparent place, horizontal coordinates) is the function `sky`, supplied
    by the caller. */
module Tracking {
  import opened Wrappers
  import opened Bodies

  /** Horizontal coordinates in degrees, as the ephemeris library returns them. */
  datatype AltAz = AltAz(alt: real, az: real)

  /** The ephemeris library: body identifier, latitude, longitude and instant
      to horizontal coordinates. */
  type Sky = (int, real, real, int) -> AltAz

  /** What calcular_posicao returns: azimuth, elevation and the instant. */
  datatype Position = Position(az: real, el: real, time: int)

  /** One row of the trajectory table. */
  datatype Row = Row(time: int, azimuth: real, elevation: real)

  // ---------------------------------------------------------------------
  // Position of one body at one instant

  /** calcular_posicao: validate the name, then ask the ephemeris. */
  function ComputePosition(name: string, lat: real, lon: real, t: int, sky: Sky): (r: Result<Position, BodyError>)
    ensures r.Ok? <==> Lookup(name).Ok?
    ensures r.Err? ==> r.error == InvalidBody(name)
    ensures r.Ok? ==> var h := sky(Lookup(name).value, lat, lon, t);
      r.value.az == h.az && r.value.el == h.alt && r.value.time == t
  {
    var key := Lower(name);
    if key in Table() then
      var h := sky(Table()[key], lat, lon, t);
      Ok(Position(h.az, h.alt, t))
    else
      Err(InvalidBody(name))
  }

  /** For a known body, in any letter case, the position is what the
      ephemeris gives for that body's identifier. */
  lemma PositionOfBody(b: Body, name: string, lat: real, lon: real, t: int, sky: Sky)
    requires Lower(name) == Name(b)
    ensures ComputePosition(name, lat, lon, t, sky)
         == Ok(Position(sky(EphemerisId(b), lat, lon, t).az, sky(EphemerisId(b), lat, lon, t).alt, t))
  {
    LookupAnyCase(b, name);
  }

  /** A name that is no body's raises and produces no position. */
  lemma PositionOfUnknown(name: string, lat: real, lon: real, t: int, sky: Sky)
    requires forall b: Body :: Name(b) != Lower(name)
    ensures ComputePosition(name, lat, lon, t, sky) == Err(InvalidBody(name))
  {
    LookupByBody(name);
  }

  // ---------------------------------------------------------------------
  // The time grid

  /** Python's `range(start, stop, step)` for a positive step. */
  function Range(start: int, stop: int, step: int): (r: seq<int>)
    requires step > 0
    ensures start >= stop ==> r == []
    ensures start < stop ==> |r| > 0 && start + (|r| - 1) * step < stop <= start + |r| * step
    ensures forall i :: 0 <= i < |r| ==> r[i] == start + i * step
    decreases stop - start
  {
    if start >= stop then []
    else
      var rest := Range(start + step, stop, step);
      assert forall i :: 1 <= i <= |rest| ==> start + i * step == start + step + (i - 1) * step;
      [start] + rest
  }

  /** Minute offsets of the samples, `range(0, 60 * 12 + 1, 10)`: they are
      0, 10, ..., 720, seventy-three of them. */
  function Offsets(): (r: seq<int>)
    ensures |r| == 73
    ensures forall i :: 0 <= i < 73 ==> r[i] == 10 * i
  {
    var r := Range(0, 60 * 12 + 1, 10);
    assert (|r| - 1) * 10 < 721 <= |r| * 10;
    r
  }

  /** The sample instants: now plus each offset, in order. */
  function Grid(now: int): (g: seq<int>)
    ensures |g| == |Offsets()|
    ensures forall i :: 0 <= i < |g| ==> g[i] - now == Offsets()[i]
  {
    var offs := Offsets();
    seq(|offs|, i requires 0 <= i < |offs| => now + offs[i])
  }

  /** The grid runs forward from now to now + 12 h in 73 evenly spaced,
      strictly increasing instants; it is not centred on now. */
  lemma GridShape(now: int)
    ensures |Grid(now)| == 73
    ensures Grid(now)[0] == now
    ensures Grid(now)[72] == now + 720
    ensures forall i :: 0 <= i < 73 ==> Grid(now)[i] == now + 10 * i
    ensures forall i :: 0 <= i < 72 ==> Grid(now)[i + 1] - Grid(now)[i] == 10
    ensures forall i, j :: 0 <= i < j < 73 ==> Grid(now)[i] < Grid(now)[j]
    ensures forall t :: t in Grid(now) ==> now <= t <= now + 720
  {
  }

  // ---------------------------------------------------------------------
  // The trajectory

  /** gerar_trajetoria: one position per grid instant, appended in order.  An
      invalid name raises on the first instant and no rows are returned. */
  method Trajectory(name: string, lat: real, lon: real, now: int, sky: Sky)
    returns (r: Result<seq<Row>, BodyError>)
    ensures r.Ok? <==> Lookup(name).Ok?
    ensures r.Err? ==> r.error == InvalidBody(name)
    ensures r.Ok? ==> |r.value| == |Grid(now)|
    ensures r.Ok? ==> forall i :: 0 <= i < |r.value| ==>
      var t := Grid(now)[i];
      var h := sky(Lookup(name).value, lat, lon, t);
      r.value[i] == Row(t, h.az, h.alt)
  {
    var times := Grid(now);
    GridShape(now);
    var dados: seq<Row> := [];
    for k := 0 to |times|
      invariant |dados| == k
      invariant k > 0 ==> Lookup(name).Ok?
      invariant forall i :: 0 <= i < k ==>
        var h := sky(Lookup(name).value, lat, lon, times[i]);
        dados[i] == Row(times[i], h.az, h.alt)
    {
      var p := ComputePosition(name, lat, lon, times[k], sky);
      if p.Err? {
        return Err(p.error);
      }
      dados := dados + [Row(times[k], p.value.az, p.value.el)];
    }
    return Ok(dados);
  }

  /** Choosing a body from the menu never reaches the error branch: the
      menu's capitalized entry, lowered again, always yields a position. */
  lemma MenuPositionSucceeds(i: int, lat: real, lon: real, t: int, sky: Sky)
    requires 0 <= i < |Menu()|
    ensures ComputePosition(Lower(Capitalize(Menu()[i])), lat, lon, t, sky).Ok?
  {
    MenuEntriesValid(i);
  }

  /** The call that draws the plot: a body picked from the menu always gets
      its full trajectory, one row per grid instant. */
  method MenuTrajectory(i: int, lat: real, lon: real, now: int, sky: Sky)
    returns (r: Result<seq<Row>, BodyError>)
    requires 0 <= i < |Menu()|
    ensures r.Ok? && |r.value| == 73
    ensures forall k :: 0 <= k < 73 ==> r.value[k].time == now + 10 * k
  {
    MenuEntriesValid(i);
    GridShape(now);
    r := Trajectory(Lower(Capitalize(Menu()[i])), lat, lon, now, sky);
  }
}
