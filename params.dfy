/** The parameter string of the species entry points: comma-separated
    numbers, the first a bit field choosing the components. */
module Params {

  /** `find_first_of(",")`: the position of the first comma, or |s| (npos)
      when there is none. */
  function FirstComma(s: string): (k: nat)
    ensures k <= |s|
    ensures k < |s| ==> s[k] == ','
    ensures forall i :: 0 <= i < k ==> s[i] != ','
  {
    if s == "" then 0
    else if s[0] == ',' then 0
    else 1 + FirstComma(s[1..])
  }

  /** The values `parseParamList` appends: `atof` of what is left of the
      input, then the input is cut after the first comma, until it is empty
      or has no comma left. `atof` reads a number from the front of the
      string. */
  function ParsedValues(atof: string -> real, s: string): seq<real>
    decreases |s|
  {
    if s == "" then []
    else if FirstComma(s) < |s| then [atof(s)] + ParsedValues(atof, s[FirstComma(s) + 1..])
    else [atof(s)]
  }

  /** `parseParamList`: the loop of the source, with `found` standing for
      `i != std::string::npos`. */
  method ParseParamList(atof: string -> real, input: string) returns (output: seq<real>)
    ensures output == ParsedValues(atof, input)
  {
    var rest := input;
    var found := true;
    output := [];
    while rest != "" && found
      invariant found ==> output + ParsedValues(atof, rest) == ParsedValues(atof, input)
      invariant !found ==> output == ParsedValues(atof, input)
      decreases |rest| + (if found then 1 else 0)
    {
      var value := atof(rest);
      var i := FirstComma(rest);
      ghost var before := output;
      output := output + [value];
      if i < |rest| {
        var tail := rest[i + 1..];
        Associate(before, value, ParsedValues(atof, tail));
        rest := tail;
      } else {
        found := false;
      }
    }
    if found {
      assert output + [] == output;
    }
  }

  lemma Associate(s: seq<real>, x: real, t: seq<real>)
    ensures s + [x] + t == s + ([x] + t)
  {
  }

  /** The comma-separated fields of a string; a comma at the very end opens
      no further field. */
  function Fields(s: string): seq<string>
    decreases |s|
  {
    if s == "" then []
    else if FirstComma(s) < |s| then [s[..FirstComma(s)]] + Fields(s[FirstComma(s) + 1..])
    else [s]
  }

  /** `atof` stops at a comma: a comma is never part of a number. */
  ghost predicate StopsAtComma(atof: string -> real)
  {
    forall s: string, t: string :: ',' !in s ==> atof(s + [','] + t) == atof(s)
  }

  /** With an `atof` that stops at the comma, `parseParamList` yields one
      value per field, in order. */
  lemma {:induction false} OneValuePerField(atof: string -> real, s: string)
    requires StopsAtComma(atof)
    ensures |ParsedValues(atof, s)| == |Fields(s)|
    ensures forall i :: 0 <= i < |Fields(s)| ==> ParsedValues(atof, s)[i] == atof(Fields(s)[i])
    decreases |s|
  {
    if s != "" {
      var k := FirstComma(s);
      if k < |s| {
        var tail := s[k + 1..];
        assert s == s[..k] + [','] + tail;
        assert ',' !in s[..k];
        assert atof(s) == atof(s[..k]);
        OneValuePerField(atof, tail);
      }
    }
  }

  /** A trailing comma adds no value: "1,2," parses as "1,2" does. */
  lemma {:induction false} TrailingCommaIgnored(s: string)
    requires s != "" && s[|s| - 1] != ','
    ensures Fields(s + ",") == Fields(s)
    decreases |s|
  {
    var s' := s + ",";
    var k := FirstComma(s);
    FirstCommaOfPrefix(s, ",", k);
    assert FirstComma(s') == k;
    if k < |s| {
      assert s'[..k] == s[..k];
      assert s'[k + 1..] == s[k + 1..] + ",";
      TrailingCommaIgnored(s[k + 1..]);
    } else {
      assert s'[..|s|] == s;
      assert s'[|s| + 1..] == "";
    }
  }

  /** The first comma of s + t is that of s when s has one, and otherwise
      where t starts, if t starts with one. */
  lemma FirstCommaOfPrefix(s: string, t: string, k: nat)
    requires k <= |s| && (k < |s| ==> s[k] == ',') && (k == |s| ==> t != "" && t[0] == ',')
    requires forall i :: 0 <= i < k ==> s[i] != ','
    ensures FirstComma(s + t) == k
  {
    var u := s + t;
    assert u[k] == ',';
    FirstCommaUnique(u, k);
  }

  lemma {:induction false} FirstCommaUnique(u: string, k: nat)
    requires k < |u| && u[k] == ','
    requires forall i :: 0 <= i < k ==> u[i] != ','
    ensures FirstComma(u) == k
    decreases k
  {
    if k > 0 {
      assert u[1..][k - 1] == ',';
      FirstCommaUnique(u[1..], k - 1);
    }
  }

  /** `(int)x` for a float: truncation toward zero. */
  function Trunc(x: real): (n: int)
    ensures x >= 0.0 ==> n as real <= x < n as real + 1.0
    ensures x < 0.0 ==> n as real - 1.0 < x <= n as real
  {
    if x >= 0.0 then x.Floor else -((-x).Floor)
  }

  /** `flag & b` for a single bit b of a two's-complement int: the bit is
      set when the residue modulo 2b is at least b. */
  predicate Bit(flag: int, b: nat)
    requires b > 0
  {
    flag % (2 * b) >= b
  }

  /** `params.empty() || params[0]==0 ? 7 : params[0]`, converted to int. */
  function Flag(params: seq<real>): int
  {
    if |params| == 0 || params[0] == 0.0 then 7 else Trunc(params[0])
  }

  /** The bit that turns a slot on: 1, 2 or 4. */
  function SlotBit(slot: nat): (b: nat)
    ensures b > 0
  {
    if slot == 0 then 1 else if slot == 1 then 2 else 4
  }

  /** The component slots, in insertion order: slot 0 for bit 1, slot 1 for
      bit 2, slot 2 for bit 4. */
  function Present(flag: int): (slots: seq<nat>)
    ensures forall i :: 0 <= i < |slots| ==> slots[i] < 3
    ensures forall i, j :: 0 <= i < j < |slots| ==> slots[i] < slots[j]
    ensures 0 in slots <==> Bit(flag, 1)
    ensures 1 in slots <==> Bit(flag, 2)
    ensures 2 in slots <==> Bit(flag, 4)
  {
    (if Bit(flag, 1) then [0] else []) + (if Bit(flag, 2) then [1] else []) + (if Bit(flag, 4) then [2] else [])
  }

  /** No parameters, or a first parameter of 0, turns all three components
      on. */
  lemma DefaultAllOn(params: seq<real>)
    requires |params| == 0 || params[0] == 0.0
    ensures Present(Flag(params)) == [0, 1, 2]
  {
  }

  /** The component list is empty exactly when the flag is a multiple of 8,
      which a first parameter of 8, or of 0.5 (truncated to 0 but not equal
      to 0), produces. */
  lemma EmptyExactlyForMultiplesOfEight(flag: int)
    ensures Present(flag) == [] <==> flag % 8 == 0
  {
    ModEight(flag);
    if Present(flag) == [] {
      assert !Bit(flag, 1) && !Bit(flag, 2) && !Bit(flag, 4);
    }
  }

  lemma ModEight(x: int)
    ensures x % 8 % 2 == x % 2 && x % 8 % 4 == x % 4
  {
    var q := x / 8;
    var r := x % 8;
    assert x == 2 * (4 * q + r / 2) + r % 2;
    assert x == 4 * (2 * q + r / 4) + r % 4;
  }

  /** The two inputs that build an empty list. */
  lemma EmptyMaskInputs()
    ensures Flag([8.0]) == 8 && Present(Flag([8.0])) == []
    ensures Flag([0.5]) == 0 && Present(Flag([0.5])) == []
  {
    EmptyExactlyForMultiplesOfEight(8);
    EmptyExactlyForMultiplesOfEight(0);
  }

  /** The flag with an all-on fallback for a bit field that names no
      component, as the default for a missing or zero field already is. */
  function EffectiveFlag(params: seq<real>): (flag: int)
    ensures |Present(flag)| >= 1
    ensures Present(Flag(params)) != [] ==> flag == Flag(params)
  {
    if Present(Flag(params)) == [] then 7 else Flag(params)
  }
}
