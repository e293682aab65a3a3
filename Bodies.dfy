/** The fixed table of solar-system bodies the dashboard accepts, the
    case-insensitive lookup of a body name in it, and the selection menu. */
module Bodies {
  import opened Wrappers

  /** The error raised for a name that is not in the table; it carries the
      name as the caller gave it. */
  datatype BodyError = InvalidBody(name: string)

  /** Name to ephemeris identifier, as listed in calcular_posicao.  No two
      names share an identifier. */
  function Table(): (t: map<string, int>)
    ensures forall k, k' :: k in t && k' in t && k != k' ==> t[k] != t[k']
  {
    var t := map[
    "sun" := 10,
    "mercury" := 199,
    "venus" := 299,
    "earth" := 399,
    "moon" := 301,
    "mars" := 499,
    "jupiter" := 5,
    "saturn" := 6,
    "uranus" := 7,
    "neptune" := 8,
    "pluto" := 9
    ];
    t
  }

  /** The bodies offered in the drop-down menu, in menu order; each is a
      key of the table. */
  function Menu(): (m: seq<string>)
    ensures |m| == 10
    ensures forall i :: 0 <= i < |m| ==> m[i] in Table()
  {
    [
      "sun", "moon", "mercury", "venus", "mars",
      "jupiter", "saturn", "uranus", "neptune", "pluto"
    ]
  }

  // ---------------------------------------------------------------------
  // Letter case (ASCII)

  predicate IsUpper(c: char) { 'A' <= c <= 'Z' }

  predicate IsLower(c: char) { 'a' <= c <= 'z' }

  function LowerChar(c: char): (r: char)
    ensures !IsUpper(r)
    ensures IsUpper(c) ==> IsLower(r) && r as int == c as int + 32
    ensures !IsUpper(c) ==> r == c
  {
    if IsUpper(c) then (c as int + 32) as char else c
  }

  function UpperChar(c: char): (r: char)
    ensures !IsLower(r)
    ensures IsLower(c) ==> IsUpper(r) && r as int == c as int - 32
    ensures !IsLower(c) ==> r == c
  {
    if IsLower(c) then (c as int - 32) as char else c
  }

  /** Python's `str.lower`, on ASCII letters. */
  function Lower(s: string): (r: string)
    ensures |r| == |s|
    ensures forall i :: 0 <= i < |s| ==> r[i] == LowerChar(s[i])
  {
    if s == [] then [] else [LowerChar(s[0])] + Lower(s[1..])
  }

  /** Python's `str.capitalize`, on ASCII letters: first character upper case,
      the rest lower case. */
  function Capitalize(s: string): (r: string)
    ensures |r| == |s|
    ensures s != [] ==> !IsLower(r[0]) && LowerChar(r[0]) == LowerChar(s[0])
    ensures forall i :: 1 <= i < |r| ==> !IsUpper(r[i]) && LowerChar(r[i]) == LowerChar(s[i])
  {
    if s == [] then [] else [UpperChar(s[0])] + Lower(s[1..])
  }

  /** A string with no upper-case letter is its own lower-case form. */
  lemma {:induction false} LowerOfLowercase(s: string)
    requires forall i :: 0 <= i < |s| ==> !IsUpper(s[i])
    ensures Lower(s) == s
  {
    if s != [] {
      LowerOfLowercase(s[1..]);
    }
  }

  /** Lowering twice is lowering once. */
  lemma LowerIdempotent(s: string)
    ensures Lower(Lower(s)) == Lower(s)
  {
    LowerOfLowercase(Lower(s));
  }

  /** Capitalizing a name and lowering it again gives the lowered name. */
  lemma LowerCapitalize(s: string)
    ensures Lower(Capitalize(s)) == Lower(s)
  {
    var a, b := Lower(Capitalize(s)), Lower(s);
    assert forall i :: 0 <= i < |s| ==> a[i] == b[i];
  }

  // ---------------------------------------------------------------------
  // The lookup

  /** The name-validation step of calcular_posicao: lower the name, look it up
      in the table, or raise the invalid-body error. */
  function Lookup(name: string): (r: Result<int, BodyError>)
    ensures r.Ok? <==> Lower(name) in Table()
    ensures r.Err? ==> r == Err(InvalidBody(name))
  {
    var key := Lower(name);
    if key in Table() then Ok(Table()[key]) else Err(InvalidBody(name))
  }

  /** The result depends on the name only through its lower-case form: two
      names that agree after lowering give the same identifier, or both fail. */
  lemma LookupCaseInsensitive(a: string, b: string)
    requires Lower(a) == Lower(b)
    ensures Lookup(a).Ok? <==> Lookup(b).Ok?
    ensures Lookup(a).Ok? ==> Lookup(a).value == Lookup(b).value
  {
  }

  /** Looking up a name and looking up its lower-case form agree. */
  lemma LookupOfLowered(name: string)
    ensures Lookup(Lower(name)).Ok? <==> Lookup(name).Ok?
    ensures Lookup(name).Ok? ==> Lookup(Lower(name)).value == Lookup(name).value
  {
    LowerIdempotent(name);
  }

  // ---------------------------------------------------------------------
  // The bodies as a closed type, an independent statement of the table

  datatype Body = Sun | Mercury | Venus | Earth | Moon | Mars
                | Jupiter | Saturn | Uranus | Neptune | Pluto

  /** The body's key in the table. */
  function Name(b: Body): (r: string)
    ensures r in Table()
  {
    match b
    case Sun => "sun"
    case Mercury => "mercury"
    case Venus => "venus"
    case Earth => "earth"
    case Moon => "moon"
    case Mars => "mars"
    case Jupiter => "jupiter"
    case Saturn => "saturn"
    case Uranus => "uranus"
    case Neptune => "neptune"
    case Pluto => "pluto"
  }

  /** The body's integer identifier in the DE421 ephemeris. */
  function EphemerisId(b: Body): (r: int)
    ensures Table()[Name(b)] == r
  {
    match b
    case Sun => 10
    case Mercury => 199
    case Venus => 299
    case Earth => 399
    case Moon => 301
    case Mars => 499
    case Jupiter => 5
    case Saturn => 6
    case Uranus => 7
    case Neptune => 8
    case Pluto => 9
  }

  /** The inverse of Name on lower-case strings. */
  function Parse(s: string): (r: Result<Body, BodyError>)
    ensures r.Ok? ==> Name(r.value) == s
    ensures r.Err? ==> forall b: Body :: Name(b) != s
  {
    if s == "sun" then Ok(Sun)
    else if s == "mercury" then Ok(Mercury)
    else if s == "venus" then Ok(Venus)
    else if s == "earth" then Ok(Earth)
    else if s == "moon" then Ok(Moon)
    else if s == "mars" then Ok(Mars)
    else if s == "jupiter" then Ok(Jupiter)
    else if s == "saturn" then Ok(Saturn)
    else if s == "uranus" then Ok(Uranus)
    else if s == "neptune" then Ok(Neptune)
    else if s == "pluto" then Ok(Pluto)
    else Err(InvalidBody(s))
  }

  /** Names of distinct bodies are distinct. */
  lemma NameInjective(b: Body, c: Body)
    requires Name(b) == Name(c)
    ensures b == c
  {
  }

  /** The table holds exactly one entry per body, with that body's identifier. */
  lemma TableMatchesBodies()
    ensures forall b: Body :: Name(b) in Table() && Table()[Name(b)] == EphemerisId(b)
    ensures forall k :: k in Table() ==> Parse(k).Ok? && Name(Parse(k).value) == k
  {
  }

  /** Lookup succeeds exactly for the names of the bodies, up to letter case,
      and then yields the body's identifier. */
  lemma LookupByBody(name: string)
    ensures Lookup(name).Ok? <==> Parse(Lower(name)).Ok?
    ensures Lookup(name).Ok? ==> Lookup(name).value == EphemerisId(Parse(Lower(name)).value)
  {
    TableMatchesBodies();
  }

  /** Every body, written in any mix of letter case, is accepted with its
      identifier. */
  lemma LookupAnyCase(b: Body, name: string)
    requires Lower(name) == Name(b)
    ensures Lookup(name) == Ok(EphemerisId(b))
  {
    TableMatchesBodies();
  }

  /** A few bindings, in the letter case a caller might use. */
  lemma LookupExamples()
    ensures Lookup("moon") == Ok(301)
    ensures Lookup("Moon") == Ok(301)
    ensures Lookup("JUPITER") == Ok(5)
    ensures Lookup("sun") == Ok(10)
    ensures Lookup("xyz") == Err(InvalidBody("xyz"))
  {
    LookupAnyCase(Moon, "moon");
    assert Lower("Moon") == "moon";
    LookupAnyCase(Moon, "Moon");
    assert Lower("JUPITER") == "jupiter";
    LookupAnyCase(Jupiter, "JUPITER");
    LookupAnyCase(Sun, "sun");
    assert Lower("xyz") == "xyz";
  }

  // ---------------------------------------------------------------------
  // The menu

  /** Every menu entry, capitalized for display and lowered again as the
      dashboard does before use, is accepted by the lookup. */
  lemma MenuEntriesValid(i: int)
    requires 0 <= i < |Menu()|
    ensures Lookup(Lower(Capitalize(Menu()[i]))).Ok?
  {
    var b := [Sun, Moon, Mercury, Venus, Mars, Jupiter, Saturn, Uranus, Neptune, Pluto][i];
    assert Name(b) == Menu()[i];
    NameIsLowercase(b);
    LowerCapitalize(Name(b));
    LookupAnyCase(b, Capitalize(Name(b)));
  }

  /** Body names are written in lower case. */
  lemma NameIsLowercase(b: Body)
    ensures Lower(Name(b)) == Name(b)
  {
    var s := Name(b);
    assert forall i :: 0 <= i < |s| ==> IsLower(s[i]);
    LowerOfLowercase(s);
  }

  /** The menu offers ten distinct table keys: every key except "earth". */
  lemma MenuIsTableWithoutEarth()
    ensures |Menu()| == 10
    ensures forall i, j :: 0 <= i < j < |Menu()| ==> Menu()[i] != Menu()[j]
    ensures forall k :: k in Table() && k != "earth" <==> k in Menu()
    ensures "earth" in Table() && "earth" !in Menu()
  {
  }
}
