/** Pipeline steps, the supplies they leave behind, and the textual references between them. */
module Wires {
  import opened Prelude
  import opened Attributes
  import opened Processors

  /** One element of a wire: a string, or any other JSON value. */
  datatype WireValue = Ref(text: string) | NotText

  /** What a step writes for one of its ports. */
  datatype Wire = One(value: WireValue) | Many(values: seq<WireValue>)

  datatype Step = Step(ref: string, processor: string, attributes: map<string, Value>, wires: map<string, Wire>)

  datatype Supply = Supply(ref: string, port: string, dtype: string, verified: bool) {
    function WireRef(): string { ref + "." + port }
  }

  const INPUTS := "inputs"

  // ----- references -----

  function LastDot(s: string): (k: nat)
    requires '.' in s
    ensures k < |s| && s[k] == '.' && '.' !in s[k + 1..]
  {
    if s[|s| - 1] == '.' then |s| - 1
    else
      assert s == s[..|s| - 1] + [s[|s| - 1]];
      var k := LastDot(s[..|s| - 1]);
      assert s[k + 1..] == s[..|s| - 1][k + 1..] + [s[|s| - 1]];
      k
  }

  function ParseWireRef(v: WireValue): Option<(string, string)> {
    if v.NotText? || '.' !in v.text then None
    else if "inputs." <= v.text then
      var port := v.text[7..];
      if port != "" then Some((INPUTS, port)) else None
    else
      var k := LastDot(v.text);
      var ref, port := v.text[..k], v.text[k + 1..];
      if ref == "" || port == "" then None else Some((ref, port))
  }

  /** The last dot has something on both sides; what starts with `inputs.` only needs something after that. */
  predicate WellFormedRef(text: string) {
    if "inputs." <= text then |text| > 7
    else '.' in text && 0 < LastDot(text) < |text| - 1
  }

  /** Parsing loses nothing: the key rebuilt from the two parts is the text that was parsed,
      whichever branch split it, and a text parses exactly when it is well formed. */
  lemma KeyRebuilds(v: WireValue)
    ensures ParseWireRef(v).Some? <==> v.Ref? && WellFormedRef(v.text)
    ensures ParseWireRef(v).Some? ==> ParseWireRef(v).value.0 + "." + ParseWireRef(v).value.1 == v.text
  {
    if v.Ref? {
      var text := v.text;
      if '.' in text {
        if "inputs." <= text {
          assert text == INPUTS + "." + text[7..];
        } else {
          var k := LastDot(text);
          assert text == text[..k] + "." + text[k + 1..];
        }
      }
      assert "inputs." <= text ==> text[6] == '.';
    }
  }

  /** A reference without dots is recovered from a wire name: it is what stands before the first dot. */
  lemma WireNamesInjective(r: string, p: string, r': string, p': string)
    requires '.' !in r && '.' !in r'
    requires r + "." + p == r' + "." + p'
    ensures r == r' && p == p'
  {
    var w := r + "." + p;
    assert w[|r|] == '.' && w == r' + "." + p' && w[|r'|] == '.';
    if |r| < |r'| { assert false; }
    if |r'| < |r| { assert false; }
    assert r == w[..|r|] && r' == w[..|r'|];
    assert p == w[|r| + 1..] && p' == w[|r'| + 1..];
  }

  function WireValues(w: Wire, multiple: bool): seq<WireValue> {
    match w
    case One(v) => [v]
    case Many(vs) => if multiple then vs else [NotText]
  }

  // ----- supplies -----

  function InputSupplies(inputs: seq<string>): (r: seq<Supply>)
    ensures |r| == |inputs|
    ensures forall k :: 0 <= k < |inputs| ==> r[k] == Supply(INPUTS, inputs[k], inputs[k], false)
  {
    seq(|inputs|, k requires 0 <= k < |inputs| => Supply(INPUTS, inputs[k], inputs[k], false))
  }

  function StepSupply(step: Step, port: Port): Supply {
    Supply(step.ref, port.role, port.dtype,
           step.processor == "verify" && port.role == "matches" && port.dtype == "match_graph")
  }

  function StepSupplies(step: Step, supplier: seq<Port>): (r: seq<Supply>)
    ensures |r| == |supplier| && forall k :: 0 <= k < |r| ==> r[k] == StepSupply(step, supplier[k])
  {
    seq(|supplier|, k requires 0 <= k < |supplier| => StepSupply(step, supplier[k]))
  }

  /** The dictionary from wire names to supplies; a name supplied again takes the later supply. */
  function Index(available: seq<Supply>): map<string, Supply> {
    if available == [] then map[]
    else
      var last := available[|available| - 1];
      Index(available[..|available| - 1])[last.WireRef() := last]
  }

  /** `available[j]` is the supply that the wire name `text` stands for. */
  ghost predicate Latest(available: seq<Supply>, j: int, text: string) {
    && 0 <= j < |available| && available[j].WireRef() == text
    && forall j' :: j < j' < |available| ==> available[j'].WireRef() != text
  }

  /** The supply that the name `text` stands for, if it stands for one. */
  ghost predicate Named(available: seq<Supply>, text: string, s: Supply) {
    exists j :: Latest(available, j, text) && available[j] == s
  }

  lemma {:induction false} IndexIsLatest(available: seq<Supply>, text: string)
    ensures text in Index(available) ==> Named(available, text, Index(available)[text])
    ensures text !in Index(available) ==> forall s :: s in available ==> s.WireRef() != text
  {
    if available != [] {
      var n := |available| - 1;
      var rest := available[..n];
      IndexIsLatest(rest, text);
      assert available == rest + [available[n]];
      if available[n].WireRef() == text {
        assert Latest(available, n, text);
      } else if text in Index(rest) {
        var j :| Latest(rest, j, text) && rest[j] == Index(rest)[text];
        assert Latest(available, j, text);
      }
    }
  }

  /** The dictionary answers exactly with the supply a name stands for. */
  lemma IndexNames(available: seq<Supply>, text: string, s: Supply)
    ensures text in Index(available) && Index(available)[text] == s <==> Named(available, text, s)
  {
    IndexIsLatest(available, text);
    if Named(available, text, s) {
      var j :| Latest(available, j, text) && available[j] == s;
      assert available[j] in available;
      var i :| Latest(available, i, text) && available[i] == Index(available)[text];
      assert i == j;
    }
  }

  lemma IndexSnoc(available: seq<Supply>, s: Supply)
    ensures Index(available + [s]) == Index(available)[s.WireRef() := s]
  {
    assert (available + [s])[..|available|] == available;
  }
}
