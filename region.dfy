/** `Region`: the two study regions, each with a code and a display label. */
module Region {
  import opened Wrappers

  datatype Region = SouthAmerica | SoutheastAsia {
    function Code(): string {
      match this
      case SouthAmerica => "south_america"
      case SoutheastAsia => "southeast_asia"
    }

    function Label(): string {
      match this
      case SouthAmerica => "South America"
      case SoutheastAsia => "Southeast Asia"
    }
  }

  /** The members in declaration order, as iterating the enumeration yields them. */
  const Members: seq<Region> := [SouthAmerica, SoutheastAsia]

  /** `from_code`: the first member whose code matches, else `ValueError`. */
  function FromCode(code: string): (r: Result<Region, string>)
    ensures r.Success? <==> exists i :: 0 <= i < |Members| && Members[i].Code() == code
    ensures r.Success? ==> r.value.Code() == code
  {
    FromCodeFrom(code, 0)
  }

  function FromCodeFrom(code: string, k: nat): (r: Result<Region, string>)
    requires k <= |Members|
    ensures r.Success? <==> exists i :: k <= i < |Members| && Members[i].Code() == code
    ensures r.Success? ==> r.value.Code() == code
    decreases |Members| - k
  {
    if k == |Members| then Failure("Invalid region code: " + code)
    else if Members[k].Code() == code then Success(Members[k])
    else FromCodeFrom(code, k + 1)
  }

  /** Every region is found again from its own code. */
  lemma FromCodeOfCode(r: Region)
    ensures FromCode(r.Code()) == Success(r)
  {
    assert r == Members[if r.SouthAmerica? then 0 else 1];
    assert SouthAmerica.Code() != SoutheastAsia.Code();
  }

  /** A code no region carries is rejected. */
  lemma FromCodeRejectsUnknown(code: string)
    requires code != "south_america" && code != "southeast_asia"
    ensures FromCode(code).Failure?
  {
  }
}
