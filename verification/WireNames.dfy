/** The names under which results are reported to Buck2. */
module WireNames {
  import opened Results
  import opened Decimals
  import opened Variants

  datatype RepeatKind = Once | Stress(count: nat)

  /** `RepeatKind::count`. */
  function Repeats(repeat_: RepeatKind): nat {
    match repeat_
    case Once => 1
    case Stress(count) => count
  }

  datatype RunIdentity = RunIdentity(test: TestIdentity, repeat_: RepeatKind, repeatIndex: nat)

  function VariantPart(variant: Variant): string {
    if Identity(variant).Some? then "#" + Identity(variant).value else ""
  }

  function RepeatPart(repeat_: RepeatKind, repeatIndex: nat): string {
    if repeat_.Stress? then "#rep" + ToDecimal(repeatIndex) else ""
  }

  function WireName(run: RunIdentity): string {
    run.test.name + VariantPart(run.test.variant) + RepeatPart(run.repeat_, run.repeatIndex)
  }

  lemma {:induction false} SuffixDigitsAgree(p: string, q: string, i: nat, j: nat)
    requires p != "" && q != "" && !IsDigit(p[|p| - 1]) && !IsDigit(q[|q| - 1])
    requires p + ToDecimal(i) == q + ToDecimal(j)
    ensures p == q && i == j
  {
    hide ToDecimal;
    var s, a, b := p + ToDecimal(i), ToDecimal(i), ToDecimal(j);
    assert |p| + |a| == |q| + |b|;
    assert s[|p| - 1] == p[|p| - 1] && s == q + b && s[|q| - 1] == q[|q| - 1];
    assert forall k :: |q| <= k < |s| ==> s[k] == b[k - |q|] && IsDigit(s[k]);
    assert forall k :: |p| <= k < |s| ==> s[k] == a[k - |p|] && IsDigit(s[k]);
    assert |p| == |q|;
    assert p == s[..|p|] && q == s[..|q|];
    assert a == s[|p|..] && b == s[|q|..];
    DecimalIsInjective(i, j);
  }

  lemma {:induction false} SameSuffix(a: string, b: string, suffix: string)
    requires a + suffix == b + suffix
    ensures a == b
  {
    assert |a| == |b|;
    assert a == (a + suffix)[..|a|] && b == (b + suffix)[..|b|];
  }

  /** Two runs of one target: they share the variant and the repeat kind. */
  predicate Siblings(a: RunIdentity, b: RunIdentity) {
    && a.test.variant == b.test.variant && a.repeat_ == b.repeat_
    && a.repeatIndex < Repeats(a.repeat_) && b.repeatIndex < Repeats(b.repeat_)
  }

  /** No two runs of different tests, and no two repeats of one test, are reported under the same name. */
  lemma {:induction false} WireNamesAreDistinct(a: RunIdentity, b: RunIdentity)
    requires Siblings(a, b)
    ensures WireName(a) == WireName(b) <==> a.test.name == b.test.name && a.repeatIndex == b.repeatIndex
  {
    hide ToDecimal, Identity;
    if WireName(a) == WireName(b) {
      var variant := VariantPart(a.test.variant);
      if a.repeat_.Stress? {
        var p, q := a.test.name + variant + "#rep", b.test.name + variant + "#rep";
        assert WireName(a) == p + ToDecimal(a.repeatIndex) && WireName(b) == q + ToDecimal(b.repeatIndex);
        assert p[|p| - 1] == 'p' && q[|q| - 1] == 'p' && !IsDigit('p');
        SuffixDigitsAgree(p, q, a.repeatIndex, b.repeatIndex);
        assert p == a.test.name + (variant + "#rep") && q == b.test.name + (variant + "#rep");
        SameSuffix(a.test.name, b.test.name, variant + "#rep");
      } else {
        assert WireName(a) == a.test.name + variant && WireName(b) == b.test.name + variant;
        SameSuffix(a.test.name, b.test.name, variant);
      }
    }
  }

  /** `RunIdentity::to_buck2_name`, which builds the name in place; no other run of the target gets the same one. */
  method ToBuck2Name(run: RunIdentity) returns (name: string)
    ensures name == WireName(run)
    ensures forall other :: Siblings(run, other) ==>
              (WireName(other) == name <==> other.test.name == run.test.name && other.repeatIndex == run.repeatIndex)
  {
    name := run.test.name;
    var identity := Identity(run.test.variant);
    if identity.Some? {
      name := name + "#";
      name := name + identity.value;
    }
    if run.repeat_.Stress? {
      name := name + "#rep";
      name := name + ToDecimal(run.repeatIndex);
    }
    forall other | Siblings(run, other)
      ensures WireName(other) == WireName(run) <==>
              other.test.name == run.test.name && other.repeatIndex == run.repeatIndex
    {
      WireNamesAreDistinct(run, other);
    }
  }
}
