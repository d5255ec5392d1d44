/** The script part of `plot_tgv.py` that prepares the data: both solvers'
    statistics files are read, and every time of the X3D series is moved
    forward by one time step (1.0e-2) in place, to undo a known shift of
    -dt in that solver's output. The plots drawn afterwards are not part of
    this model. */
module Driver {
  import opened Stats

  /** The correction added to every X3D time value. */
  const TimeCorrection: real := 0.01

  /** Every value of `s` moved by `offset`. */
  function Shifted(s: seq<real>, offset: real): (r: seq<real>)
    ensures |r| == |s|
    ensures forall i :: 0 <= i < |s| ==> r[i] - s[i] == offset
  {
    if s == [] then [] else [s[0] + offset] + Shifted(s[1..], offset)
  }

  /** Shifting back by the opposite offset restores the series. This is a
      fact about the real-number model only: with IEEE doubles,
      (1e-20 + 0.01) - 0.01 is 0.0. */
  lemma ShiftedInverse(s: seq<real>, offset: real)
    ensures Shifted(Shifted(s, offset), -offset) == s
  {
  }

  /** Two shifts add up to one. This is a fact about the real-number model
      only: IEEE double addition is not associative. */
  lemma ShiftedTwice(s: seq<real>, a: real, b: real)
    ensures Shifted(Shifted(s, a), b) == Shifted(s, a + b)
  {
    var r := Shifted(Shifted(s, a), b);
    assert forall i :: 0 <= i < |s| ==> r[i] == Shifted(s, a + b)[i];
  }

  /** `for i in range(len(t)): t[i] += offset`, in place. */
  method ShiftTimes(t: array<real>, offset: real)
    modifies t
    ensures t[..] == Shifted(old(t[..]), offset)
  {
    var i := 0;
    while i < t.Length
      invariant 0 <= i <= t.Length
      invariant forall k :: 0 <= k < i ==> t[k] == old(t[k]) + offset
      invariant forall k :: i <= k < t.Length ==> t[k] == old(t[k])
    {
      t[i] := t[i] + offset;
      i := i + 1;
    }
    ghost var was := old(t[..]);
    assert forall k :: 0 <= k < t.Length ==> t[..][k] == Shifted(was, offset)[k];
  }

  /** Which of the two reads failed. */
  datatype ReadFailure = X3dFailed(error: Error) | E3dFailed(error: Error)

  /** The two solvers' columns as the plots receive them. */
  datatype Series = Series(x3d: Columns, e3d: Columns)

  /** An array holding the elements of `s`, as a Python list does. */
  method ToArray(s: seq<real>) returns (a: array<real>)
    ensures fresh(a) && a[..] == s
  {
    a := new real[|s|](i requires 0 <= i < |s| => s[i]);
  }

  /** The two reads and the in-place correction of the X3D times. The X3D
      file is read first, so its failure is the one reported when both
      files are unreadable. The enstrophy and kinetic-energy lists and the
      whole E3D series come through unchanged. */
  method PrepareSeries(x3dLines: seq<string>, e3dLines: seq<string>, parse: string -> Option<real>)
    returns (r: Result<Series, ReadFailure>)
    ensures ReadStatsSpec(x3dLines, parse).Err? ==>
              r == Err(X3dFailed(ReadStatsSpec(x3dLines, parse).error))
    ensures ReadStatsSpec(x3dLines, parse).Ok? && ReadStatsSpec(e3dLines, parse).Err? ==>
              r == Err(E3dFailed(ReadStatsSpec(e3dLines, parse).error))
    ensures r.Ok? <==> ReadStatsSpec(x3dLines, parse).Ok? && ReadStatsSpec(e3dLines, parse).Ok?
    ensures r.Ok? ==>
              var raw := ReadStatsSpec(x3dLines, parse).value;
              && r.value.x3d == Columns(Shifted(raw.t, TimeCorrection), raw.enst, raw.ke)
              && r.value.e3d == ReadStatsSpec(e3dLines, parse).value
  {
    var x3d := ReadStats(x3dLines, parse);
    if x3d.Err? {
      return Err(X3dFailed(x3d.error));
    }
    var e3d := ReadStats(e3dLines, parse);
    if e3d.Err? {
      return Err(E3dFailed(e3d.error));
    }
    var t := ToArray(x3d.value.t);
    var enst := ToArray(x3d.value.enst);
    var ke := ToArray(x3d.value.ke);
    ShiftTimes(t, TimeCorrection);
    r := Ok(Series(Columns(t[..], enst[..], ke[..]), e3d.value));
  }
}
