/**
 * The truncate pipe, as its tests pin it down: missing or empty input gives
 * the empty string, input within the limit is kept, and longer input is cut
 * to `limit` characters followed by the trail.
 */
module Truncate {
  import opened Wrappers
  import opened Text

  const DefaultLimit: nat := 50
  const DefaultTrail := "..."

  /** `transform(value, limit, trail)`; `None` stands for null and undefined. */
  function Transform(value: Option<string>, limit: nat, trail: string): (r: string)
    ensures value.None? || value == Some("") ==> r == ""
    ensures value.Some? && |value.value| <= limit ==> r == value.value
    ensures value.Some? && |value.value| > limit ==>
      |r| == limit + |trail| && r[..limit] == value.value[..limit] && r[limit..] == trail
    ensures |r| <= limit + |trail|
  {
    match value
    case None => ""
    case Some(s) => if |s| <= limit then s else s[..limit] + trail
  }

  /** `transform(value)` with the default limit and trail. */
  function TransformDefault(value: Option<string>): (r: string)
    ensures |r| <= DefaultLimit + |DefaultTrail|
  {
    Transform(value, DefaultLimit, DefaultTrail)
  }

  /** The result is the input itself, or a proper prefix of it followed by the trail. */
  lemma InputOrPrefixAndTrail(s: string, limit: nat, trail: string)
    ensures var r := Transform(Some(s), limit, trail);
            r == s || exists p :: StartsWith(s, p) && |p| < |s| && r == p + trail
  {
    var r := Transform(Some(s), limit, trail);
    if |s| > limit {
      assert StartsWith(s, s[..limit]) && r == s[..limit] + trail;
    }
  }

  /** A long input under the defaults becomes 53 characters ending in the trail. */
  lemma DefaultLength(s: string)
    requires |s| > DefaultLimit
    ensures |TransformDefault(Some(s))| == 53
    ensures TransformDefault(Some(s))[50..] == "..."
  {
  }

  /** The pipe's test cases. */
  lemma TestCases()
    ensures Transform(None, DefaultLimit, DefaultTrail) == ""
    ensures Transform(Some(""), DefaultLimit, DefaultTrail) == ""
    ensures Transform(Some("Short text"), 20, DefaultTrail) == "Short text"
    ensures Transform(Some("Este é um texto longo"), 10, DefaultTrail) == "Este é um ..."
    ensures Transform(Some("Este é um texto longo"), 10, " [...]") == "Este é um  [...]"
    ensures Transform(Some("a"), 1, DefaultTrail) == "a"
    ensures Transform(Some("ab"), 1, DefaultTrail) == "a..."
    ensures Transform(Some("test"), 0, "...") == "..."
  {
    assert "Este é um texto longo"[..10] == "Este é um ";
    assert "ab"[..1] == "a";
  }
}
