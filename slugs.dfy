/** Search slugs (cmsRoute.js, `slugify` inside `populateSearch`): a member's
    name is passed through d3plus-text's `strip`, runs of hyphens are
    collapsed, the result is lower-cased, and if that slug was already seen
    in this pass the member's id is appended. Every slug handed out is
    recorded as seen. `strip` is not part of this model and is taken as a
    parameter. */
module Slugs {

  /** No two hyphens stand next to each other. */
  predicate NoDoubleHyphen(s: string)
  {
    forall i :: 0 <= i < |s| - 1 ==> !(s[i] == '-' && s[i + 1] == '-')
  }

  /** `replace(/-{2,}/g, "-")`: each run of two or more hyphens becomes a
      single hyphen. */
  function CollapseHyphens(s: string): (r: string)
    ensures NoDoubleHyphen(r)
    ensures |s| > 0 ==> |r| > 0 && r[0] == s[0]
    ensures |r| <= |s|
  {
    if |s| < 2 then s
    else if s[0] == '-' && s[1] == '-' then CollapseHyphens(s[1..])
    else [s[0]] + CollapseHyphens(s[1..])
  }

  /** The characters of `s` other than hyphens, in order. */
  function Letters(s: string): string
  {
    if |s| == 0 then ""
    else if s[0] == '-' then Letters(s[1..])
    else [s[0]] + Letters(s[1..])
  }

  /** Collapsing removes hyphens only: every other character stays, in
      order. */
  lemma {:induction false} CollapseKeepsLetters(s: string)
    ensures Letters(CollapseHyphens(s)) == Letters(s)
  {
    if |s| >= 2 {
      CollapseKeepsLetters(s[1..]);
      if !(s[0] == '-' && s[1] == '-') {
        assert ([s[0]] + CollapseHyphens(s[1..]))[1..] == CollapseHyphens(s[1..]);
      }
    }
  }

  /** A string without a double hyphen is left as it is. */
  lemma {:induction false} CollapseKeepsSingleHyphens(s: string)
    requires NoDoubleHyphen(s)
    ensures CollapseHyphens(s) == s
  {
    if |s| >= 2 {
      assert NoDoubleHyphen(s[1..]) by {
        forall i | 0 <= i < |s[1..]| - 1
          ensures !(s[1..][i] == '-' && s[1..][i + 1] == '-')
        {
          assert s[1..][i] == s[i + 1] && s[1..][i + 1] == s[i + 2];
        }
      }
      CollapseKeepsSingleHyphens(s[1..]);
      assert s == [s[0]] + s[1..];
    }
  }

  /** Collapsing twice is collapsing once. */
  lemma CollapseIdempotent(s: string)
    ensures CollapseHyphens(CollapseHyphens(s)) == CollapseHyphens(s)
  {
    CollapseKeepsSingleHyphens(CollapseHyphens(s));
  }

  /** `toLowerCase` on the ASCII letters; other characters are kept. */
  function LowerChar(c: char): (d: char)
    ensures !('A' <= d <= 'Z')
    ensures (d == '-') <==> (c == '-')
  {
    if 'A' <= c <= 'Z' then (c as int - 'A' as int + 'a' as int) as char else c
  }

  predicate HasNoCapitals(s: string)
  {
    forall i :: 0 <= i < |s| ==> !('A' <= s[i] <= 'Z')
  }

  function Lower(s: string): (r: string)
    ensures |r| == |s| && HasNoCapitals(r)
    ensures forall i :: 0 <= i < |s| ==> (r[i] == '-' <==> s[i] == '-')
  {
    seq(|s|, i requires 0 <= i < |s| => LowerChar(s[i]))
  }

  /** Lower-casing neither makes nor breaks a pair of hyphens. */
  lemma LowerKeepsNoDoubleHyphen(s: string)
    requires NoDoubleHyphen(s)
    ensures NoDoubleHyphen(Lower(s))
  {
    var r := Lower(s);
    forall i | 0 <= i < |r| - 1
      ensures !(r[i] == '-' && r[i + 1] == '-')
    {
      assert r[i] == '-' <==> s[i] == '-';
      assert r[i + 1] == '-' <==> s[i + 1] == '-';
    }
  }

  /** A lower-case string is its own lower case. */
  lemma LowerIdempotent(s: string)
    requires HasNoCapitals(s)
    ensures Lower(s) == s
  {
    assert forall i :: 0 <= i < |s| ==> LowerChar(s[i]) == s[i];
  }

  /** The slug a name starts from: stripped, hyphen runs collapsed,
      lower-cased. */
  function Candidate(strip: string -> string, name: string): (r: string)
    ensures NoDoubleHyphen(r) && HasNoCapitals(r)
  {
    var collapsed := CollapseHyphens(strip(name));
    LowerKeepsNoDoubleHyphen(collapsed);
    Lower(collapsed)
  }

  /** The candidate is already normalised: normalising it again without a
      strip step gives it back. */
  lemma CandidateIsNormal(strip: string -> string, name: string)
    ensures Lower(CollapseHyphens(Candidate(strip, name))) == Candidate(strip, name)
  {
    var c := Candidate(strip, name);
    CollapseKeepsSingleHyphens(c);
    LowerIdempotent(c);
  }

  /** The slug handed out for a member: the candidate, or, when the candidate
      was already seen, the candidate followed by `-` and the member's id. */
  function Slug(seen: seq<string>, strip: string -> string, name: string, id: string): string
  {
    var c := Candidate(strip, name);
    if c in seen then c + "-" + id else c
  }

  /** A slug that was already seen can only come out when both the candidate
      and its id-suffixed form were taken. */
  lemma SlugFreshUnlessSuffixTaken(seen: seq<string>, strip: string -> string, name: string, id: string)
    ensures Slug(seen, strip, name, id) in seen ==>
      Candidate(strip, name) in seen && Candidate(strip, name) + "-" + id in seen
    ensures Candidate(strip, name) !in seen ==> Slug(seen, strip, name, id) == Candidate(strip, name)
  {
  }

  /** Two slugs handed out for the same taken candidate differ when the ids
      differ. */
  lemma SuffixedSlugsDiffer(seen: seq<string>, strip: string -> string, a: string, b: string, idA: string, idB: string)
    requires Candidate(strip, a) == Candidate(strip, b) && Candidate(strip, a) in seen
    requires idA != idB
    ensures Slug(seen, strip, a, idA) != Slug(seen, strip, b, idB)
  {
    var c := Candidate(strip, a);
    assert (c + "-" + idA)[|c| + 1..] == idA;
    assert (c + "-" + idB)[|c| + 1..] == idB;
  }

  /** "paris" is taken, and so is "paris-2": a second member named "Paris"
      with id 2 (strip leaving the name alone) gets "paris-2" again. */
  lemma SuffixCollision()
    ensures Slug(["paris", "paris-2"], s => s, "Paris", "2") == "paris-2"
  {
    assert CollapseHyphens("Paris") == "Paris";
    assert Lower("Paris") == "paris";
  }

  /** The list of slugs seen during one pass over one locale: the stored
      non-empty slugs, then every slug handed out. */
  class SlugRegistry {
    var seen: seq<string>

    constructor (stored: seq<string>)
      ensures seen == stored
    {
      seen := stored;
    }

    /** `slugify(str, id)`. */
    method Slugify(strip: string -> string, name: string, id: string) returns (slug: string)
      modifies this
      ensures slug == Slug(old(seen), strip, name, id)
      ensures seen == old(seen) + [slug]
    {
      slug := Candidate(strip, name);
      if slug in seen {
        slug := slug + "-" + id;
      }
      seen := seen + [slug];
    }
  }
}
