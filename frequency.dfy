/** Frequency: a positive radio frequency in megahertz and the bands it falls into. */
module Frequencies {
  import opened Wrappers
  import opened Exceptions
  import opened Floating

  type MegaHertz = r: real | r > 0.0 witness 1.0

  datatype Frequency = Frequency(megaHertz: MegaHertz)

  /** new Frequency(value): ArgumentException for zero or a negative value. */
  function New(value: real): (r: Result<Frequency, Exception>)
    ensures r.Success? <==> value > 0.0
    ensures r.Success? ==> AsMegaHertz(r.value) == value
    ensures r.Failure? ==> r.error.Argument?
  {
    if value <= 0.0 then Failure(Argument("A frequency shall not be zero or negative."))
    else Success(Frequency(value))
  }

  function AsMegaHertz(f: Frequency): real {
    f.megaHertz
  }

  // The bands, in MHz. Each contract places the band among the others.

  predicate IsUhf(f: Frequency)
    ensures IsUhf(f) ==> !(3.0 <= AsMegaHertz(f) < 300.0)
  {
    300.0 <= f.megaHertz <= 3000.0
  }

  predicate IsVhf(f: Frequency)
    ensures IsVhf(f) ==> !IsUhf(f)
  {
    30.0 <= f.megaHertz < 300.0
  }

  predicate IsHf(f: Frequency)
    ensures IsHf(f) ==> !IsVhf(f) && !IsUhf(f)
  {
    3.0 <= f.megaHertz < 30.0
  }

  predicate IsVor(f: Frequency)
    ensures IsVor(f) ==> IsVhf(f)
  {
    108.0 <= f.megaHertz <= 117.975
  }

  predicate IsAtc(f: Frequency)
    ensures IsAtc(f) ==> IsVhf(f)
    ensures IsAtc(f) && IsVor(f) <==> AsMegaHertz(f) == 117.975
  {
    117.975 <= f.megaHertz <= 137.0
  }

  predicate IsDme(f: Frequency)
    ensures IsDme(f) ==> IsUhf(f)
  {
    962.0 <= f.megaHertz <= 1213.0
  }

  predicate IsLocalizer(f: Frequency)
    ensures IsLocalizer(f) ==> IsVor(f) && !IsAtc(f)
  {
    108.1 <= f.megaHertz <= 111.95
  }

  predicate IsGlideslope(f: Frequency)
    ensures IsGlideslope(f) ==> IsUhf(f) && !IsDme(f)
  {
    329.0 <= f.megaHertz <= 335.0
  }

  predicate IsMarker(f: Frequency)
    ensures IsMarker(f) ==> IsVhf(f) && !IsVor(f) && !IsAtc(f)
  {
    74.6 <= f.megaHertz <= 75.4
  }

  predicate IsNdb(f: Frequency)
    ensures IsNdb(f) ==> !IsHf(f) && (IsVhf(f) || IsUhf(f))
  {
    190.0 <= f.megaHertz <= 1750.0
  }

  predicate IsTacan(f: Frequency)
    ensures IsTacan(f) <==> IsDme(f)
  {
    962.0 <= f.megaHertz <= 1213.0
  }

  /** The HF, VHF and UHF bands do not overlap. */
  lemma BandsDisjoint(f: Frequency)
    ensures !(IsHf(f) && IsVhf(f)) && !(IsHf(f) && IsUhf(f)) && !(IsVhf(f) && IsUhf(f))
  {
  }

  /** DME and TACAN share their range; a localizer frequency is a VOR frequency; ATC and VOR meet only at 117.975. */
  lemma NavigationBands(f: Frequency)
    ensures IsDme(f) <==> IsTacan(f)
    ensures IsLocalizer(f) ==> IsVor(f) && IsVhf(f)
    ensures IsAtc(f) && IsVor(f) <==> f.megaHertz == 117.975
    ensures IsMarker(f) || IsVor(f) || IsAtc(f) ==> IsVhf(f)
    ensures IsGlideslope(f) || IsDme(f) ==> IsUhf(f)
  {
  }

  /** operator ==: FloatingEqual with tolerance 1e-3. */
  predicate Eq(a: Frequency, b: Frequency) {
    FloatingEqual(AsMegaHertz(a), AsMegaHertz(b), 0.001)
  }

  /** Equals(Frequency): exactly the same value. */
  predicate Equals(a: Frequency, other: Frequency) {
    AsMegaHertz(a) == AsMegaHertz(other)
  }

  /** Equals is identity and implies the tolerant ==, which admits neighbours Equals does not. */
  lemma EqualsAndEq(a: Frequency, b: Frequency)
    ensures Equals(a, b) <==> a == b
    ensures Equals(a, b) ==> Eq(a, b)
    ensures Eq(Frequency(118.0), Frequency(118.0001)) && !Equals(Frequency(118.0), Frequency(118.0001))
  {
  }
}
