/** Test identities: the variant axis, the repeat axis, and the names they are reported under. */
module Variants {
  import opened Results

  datatype Variant = Default | Asan | Tsan | Miri | Loom | Coverage | Named(name: string)

  /** `Variant::identity`. */
  function Identity(variant: Variant): Option<string> {
    match variant
    case Default => None
    case Asan => Some("asan")
    case Tsan => Some("tsan")
    case Miri => Some("miri")
    case Loom => Some("loom")
    case Coverage => Some("coverage")
    case Named(name) => Some(name)
  }

  /** `Variant::parse`. */
  function Parse(text: string): Variant {
    if text == "default" then Default
    else if text == "asan" then Asan
    else if text == "tsan" then Tsan
    else if text == "miri" then Miri
    else if text == "loom" then Loom
    else if text == "coverage" then Coverage
    else Named(text)
  }

  /** The text under which the duration database stores a variant. */
  function Text(variant: Variant): string {
    if Identity(variant).Some? then Identity(variant).value else "default"
  }

  predicate Reserved(text: string) {
    text in {"default", "asan", "tsan", "miri", "loom", "coverage"}
  }

  /** A variant that `Parse` can produce. */
  predicate Canonical(variant: Variant) {
    variant.Named? ==> !Reserved(variant.name)
  }

  lemma {:induction false} ParseIsCanonical(text: string)
    ensures Canonical(Parse(text)) && Text(Parse(text)) == text
  {
  }

  /** Storing a variant and reading it back is lossless exactly for canonical variants. */
  lemma {:induction false} TextRoundTripIff(variant: Variant)
    ensures Parse(Text(variant)) == variant <==> Canonical(variant)
  {
    assert |"default"| == 7 && |"asan"| == 4 && |"tsan"| == 4 && |"miri"| == 4 && |"loom"| == 4 && |"coverage"| == 8;
    assert "asan"[0] != "tsan"[0] && "asan"[0] != "miri"[0] && "asan"[0] != "loom"[0];
    assert "tsan"[0] != "miri"[0] && "tsan"[0] != "loom"[0] && "miri"[0] != "loom"[0];
  }

  /** For one: a variant named like a built-in one comes back as that. */
  lemma {:induction false} NamedAsanIsLost()
    ensures Parse(Text(Named("asan"))) == Asan
  {
    assert "asan"[0] != "default"[0];
  }

  datatype TestIdentity = TestIdentity(target: string, name: Name, variant: Variant)
}
