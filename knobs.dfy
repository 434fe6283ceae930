// PhreeqcKnobs: six solver settings copied out of a Phreeqc instance and
// back. The litephreeqc and POET copies of Knobs.cpp are the same code.

module Knobs {
  /** std::uint32_t. */
  type U32 = x: int | 0 <= x < 0x1_0000_0000

  /** The solver's `int` fields. */
  type I32 = x: int | -0x8000_0000 <= x < 0x8000_0000

  /** PhreeqcKnobsParams. */
  datatype Params = Params(
    iterations: U32,
    convergenceTolerance: real,
    tolerance: real,
    stepSize: real,
    peStepSize: real,
    diagonalScale: bool)

  /** The knob fields of a Phreeqc instance: itmax and diagonal_scale are `int`, the others `double`. */
  datatype SolverKnobs = SolverKnobs(
    itmax: I32,
    convergenceTolerance: real,
    ineqTol: real,
    stepSize: real,
    peStepSize: real,
    diagonalScale: I32)

  /** `int` to `std::uint32_t`: reduction modulo 2^32. */
  function ToU32(x: I32): (r: U32)
    ensures r % 0x1_0000_0000 == x % 0x1_0000_0000
  {
    if x >= 0 then x else x + 0x1_0000_0000
  }

  /** `std::uint32_t` to `int`: the two's-complement reading of the same 32 bits. */
  function ToI32(u: U32): (r: I32)
    ensures r % 0x1_0000_0000 == u % 0x1_0000_0000
  {
    if u < 0x8000_0000 then u else u - 0x1_0000_0000
  }

  /** `bool` to `int`. */
  function FromBool(b: bool): I32
  {
    if b then 1 else 0
  }

  /** readKnobs: the six fields in, diagonal_scale as `static_cast<bool>`. */
  function Read(k: SolverKnobs): (p: Params)
    ensures p.diagonalScale <==> k.diagonalScale != 0
    ensures k.itmax >= 0 ==> p.iterations == k.itmax
  {
    Params(ToU32(k.itmax), k.convergenceTolerance, k.ineqTol, k.stepSize, k.peStepSize, k.diagonalScale != 0)
  }

  /** writeKnobs: the six fields out. */
  function Written(p: Params): SolverKnobs
  {
    SolverKnobs(ToI32(p.iterations), p.convergenceTolerance, p.tolerance, p.stepSize, p.peStepSize, FromBool(p.diagonalScale))
  }

  /** Writing a set of knobs and reading them back gives the same knobs, wide iteration counts included. */
  lemma WriteRead(p: Params)
    ensures Read(Written(p)) == p
  {
    var u := p.iterations;
    assert ToU32(ToI32(u)) == u by {
      if u >= 0x8000_0000 {
        assert ToI32(u) as int == u as int - 0x1_0000_0000;
      }
    }
  }

  /** Reading and writing back changes an instance only in a diagonal_scale other than 0 or 1, which becomes 1. */
  lemma ReadWrite(k: SolverKnobs)
    ensures Written(Read(k)) == k.(diagonalScale := if k.diagonalScale == 0 then 0 else 1)
  {
    var x := k.itmax;
    assert ToI32(ToU32(x)) == x by {
      if x < 0 {
        assert ToU32(x) as int == x as int + 0x1_0000_0000;
      }
    }
  }

  /** The part of a Phreeqc instance the knobs touch. */
  class Phreeqc {
    var itmax: I32
    var convergenceTolerance: real
    var ineqTol: real
    var stepSize: real
    var peStepSize: real
    var diagonalScale: I32

    function Knobs(): SolverKnobs
      reads this
    {
      SolverKnobs(itmax, convergenceTolerance, ineqTol, stepSize, peStepSize, diagonalScale)
    }

    constructor(k: SolverKnobs)
      ensures Knobs() == k
    {
      itmax := k.itmax;
      convergenceTolerance := k.convergenceTolerance;
      ineqTol := k.ineqTol;
      stepSize := k.stepSize;
      peStepSize := k.peStepSize;
      diagonalScale := k.diagonalScale;
    }
  }

  /** PhreeqcKnobs: a copy of the knobs, independent of the instance it came from. */
  class PhreeqcKnobs {
    var params: Params

    /** The constructor is readKnobs. */
    constructor(inst: Phreeqc)
      ensures params == Read(inst.Knobs())
    {
      var k := inst.Knobs();
      params := Params(ToU32(k.itmax), k.convergenceTolerance, k.ineqTol, k.stepSize, k.peStepSize, k.diagonalScale != 0);
    }

    /** readKnobs: the knobs only, the instance is left alone. */
    method ReadKnobs(inst: Phreeqc)
      modifies this
      ensures params == Read(inst.Knobs())
    {
      params := Params(ToU32(inst.itmax), inst.convergenceTolerance, inst.ineqTol, inst.stepSize, inst.peStepSize, inst.diagonalScale != 0);
    }

    /** writeKnobs: the instance's six fields, the knobs are left alone. */
    method WriteKnobs(inst: Phreeqc)
      modifies inst
      ensures inst.Knobs() == Written(params)
    {
      inst.itmax := ToI32(params.iterations);
      inst.convergenceTolerance := params.convergenceTolerance;
      inst.ineqTol := params.tolerance;
      inst.stepSize := params.stepSize;
      inst.peStepSize := params.peStepSize;
      inst.diagonalScale := FromBool(params.diagonalScale);
    }

    method GetParams() returns (p: Params)
      ensures p == params
    {
      p := params;
    }

    method SetParams(p: Params)
      modifies this
      ensures params == p
    {
      params := p;
    }
  }

  /**
   * Writing knobs to an instance and reading them from it gives back the same
   * params, whether they are read into the same knobs object or another one.
   */
  method WriteThenRead(knobs: PhreeqcKnobs, inst: Phreeqc, target: PhreeqcKnobs) returns (p: Params)
    modifies inst, target
    ensures p == knobs.params
  {
    var written := knobs.params;
    knobs.WriteKnobs(inst);
    target.ReadKnobs(inst);
    WriteRead(written);
    p := target.GetParams();
  }
}
