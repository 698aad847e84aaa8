/** The recognition post-processing of backend/services/identify_service.py: interest
    normalisation, the hedging-phrase detector, list capping, confidence inference and
    confirmation gating, interest matching, and the request-resolution and caching part of
    `identify_landmark`. The image recogniser is the `reply` argument; the stored profile is the
    `stored` argument (what `get_profile` returns for the user). */
module IdentifyService {
  import opened Wrappers
  import opened Text
  import opened Seqs
  import opened Schemas
  import Cache
  import Queries

  const ConfirmThreshold: real := 0.65
  const MaxInterests: int := 8
  const IdentifyTtl: int := 60 * 60

  // ---------------------------------------------------------------------------------------------
  // normalize_interests

  /** The stripped, lower-cased, non-empty entries, in input order, repeats included. */
  function Cleaned(xs: seq<string>): (r: seq<string>)
    ensures forall x :: x in r ==> x != "" && IsCanonical(x)
    decreases |xs|
  {
    if xs == [] then []
    else
      var c := Cleaned(xs[..|xs| - 1]);
      var t := StripLower(xs[|xs| - 1]);
      StripLowerCanonical(xs[|xs| - 1]);
      if t == "" then c else c + [t]
  }

  /** The loop stops as soon as it holds `max_n` interests, but only after appending one, so a
      cap below 1 still lets one through. */
  function Cap(maxN: int): nat {
    if maxN >= 1 then maxN else 1
  }

  /** What `normalize_interests(xs, max_n)` returns. */
  function NormalizedInterests(xs: seq<string>, maxN: int): seq<string> {
    SliceTo(DedupeBy(Cleaned(xs), Id), Cap(maxN))
  }

  /** One more entry adds its cleaned form, unless that is blank. */
  lemma CleanedSnoc(xs: seq<string>, x: string)
    ensures Cleaned(xs + [x]) == Cleaned(xs) + (if StripLower(x) == "" then [] else [StripLower(x)])
  {
    var ys := xs + [x];
    assert ys[..|ys| - 1] == xs;
    assert ys[|ys| - 1] == x;
  }

  lemma {:induction false} CleanedAppend(a: seq<string>, b: seq<string>)
    ensures Cleaned(a + b) == Cleaned(a) + Cleaned(b)
    decreases |b|
  {
    if b == [] {
      assert a + b == a;
    } else {
      var b', x := b[..|b| - 1], b[|b| - 1];
      var tail := if StripLower(x) == "" then [] else [StripLower(x)];
      assert b == b' + [x];
      assert a + b == (a + b') + [x];
      CleanedAppend(a, b');
      CleanedSnoc(a + b', x);
      CleanedSnoc(b', x);
      assert Cleaned(a) + (Cleaned(b') + tail) == (Cleaned(a) + Cleaned(b')) + tail;
    }
  }

  lemma CleanedStep(xs: seq<string>, i: nat)
    requires i < |xs|
    ensures Cleaned(xs[..i + 1]) ==
      if StripLower(xs[i]) == "" then Cleaned(xs[..i]) else Cleaned(xs[..i]) + [StripLower(xs[i])]
  {
    assert xs[..i + 1][..i] == xs[..i];
  }

  /** Every element of the cleaned list is the stripped, lower-cased form of some entry. */
  lemma {:induction false} CleanedFrom(xs: seq<string>)
    ensures forall x :: x in Cleaned(xs) ==> exists k :: 0 <= k < |xs| && StripLower(xs[k]) == x
    decreases |xs|
  {
    if xs != [] {
      var xs' := xs[..|xs| - 1];
      CleanedFrom(xs');
      forall x | x in Cleaned(xs) ensures exists k :: 0 <= k < |xs| && StripLower(xs[k]) == x {
        if x in Cleaned(xs') {
          var k :| 0 <= k < |xs'| && StripLower(xs'[k]) == x;
          assert xs[k] == xs'[k];
        } else {
          assert StripLower(xs[|xs| - 1]) == x;
        }
      }
    }
  }

  /** Every entry that is not blank after stripping appears, cleaned, in the cleaned list. */
  lemma {:induction false} CleanedCovers(xs: seq<string>)
    ensures forall k :: 0 <= k < |xs| && StripLower(xs[k]) != "" ==> StripLower(xs[k]) in Cleaned(xs)
    decreases |xs|
  {
    if xs != [] {
      var xs', x := xs[..|xs| - 1], xs[|xs| - 1];
      assert xs == xs' + [x];
      CleanedSnoc(xs', x);
      CleanedCovers(xs');
      forall k | 0 <= k < |xs| && StripLower(xs[k]) != "" ensures StripLower(xs[k]) in Cleaned(xs) {
        if k < |xs'| {
          assert xs'[k] == xs[k];
        }
      }
    }
  }

  lemma {:induction false} CleanedOfCanonical(xs: seq<string>)
    requires forall x :: x in xs ==> x != "" && IsCanonical(x)
    ensures Cleaned(xs) == xs
    decreases |xs|
  {
    if xs != [] {
      var xs' := xs[..|xs| - 1];
      assert forall x :: x in xs' ==> x in xs;
      CleanedOfCanonical(xs');
      assert xs[|xs| - 1] in xs;
      StripLowerOfCanonical(xs[|xs| - 1]);
      assert xs' + [xs[|xs| - 1]] == xs;
    }
  }

  /** The loop of `normalize_interests`: trim and lower-case each entry, skip empties and
      repeats, stop once `max_n` are kept. */
  method NormalizeInterests(interests: seq<string>, maxN: int) returns (cleaned: seq<string>)
    ensures cleaned == NormalizedInterests(interests, maxN)
  {
    cleaned := [];
    var seen: set<string> := {};
    for i := 0 to |interests|
      invariant cleaned == DedupeBy(Cleaned(interests[..i]), Id)
      invariant seen == KeySet(cleaned, Id)
      invariant |cleaned| < Cap(maxN)
    {
      CleanedStep(interests, i);
      var t := StripLower(interests[i]);
      if t == "" {
        continue;
      }
      DedupeStep(Cleaned(interests[..i]), t, Id);
      if t in seen {
        continue;
      }
      KeySetAppend(cleaned, t, Id);
      seen := seen + {t};
      cleaned := cleaned + [t];
      if |cleaned| >= maxN {
        NormalizeStopsEarly(interests, i + 1, maxN);
        return;
      }
    }
    assert interests[..|interests|] == interests;
  }

  /** Stopping once the cap is reached yields the capped result for the whole input. */
  lemma NormalizeStopsEarly(xs: seq<string>, n: nat, maxN: int)
    requires n <= |xs|
    requires |DedupeBy(Cleaned(xs[..n]), Id)| == Cap(maxN)
    ensures DedupeBy(Cleaned(xs[..n]), Id) == NormalizedInterests(xs, maxN)
  {
    var a, b := Cleaned(xs[..n]), Cleaned(xs[n..]);
    assert Cleaned(xs) == a + b by {
      TakeDrop(xs, n);
      CleanedAppend(xs[..n], xs[n..]);
    }
    var d := DedupeBy(a + b, Id);
    assert DedupeBy(a, Id) == d[..Cap(maxN)] by {
      DedupePrefix(a, b, Id);
    }
    var r := SliceTo(d, Cap(maxN));
    assert r == d[..Cap(maxN)];
  }

  /** Every interest kept is stripped, lower-cased and non-empty and comes from some entry; no
      two are equal; there are at most `max_n` of them (one when `max_n` is below 1); they
      appear in the order of first occurrence; and when the cap is not reached every non-empty
      entry is kept. */
  lemma NormalizedInterestsShape(xs: seq<string>, maxN: int)
    ensures var r := NormalizedInterests(xs, maxN);
      && (forall x :: x in r ==> x != "" && IsCanonical(x))
      && (forall x :: x in r ==> exists k :: 0 <= k < |xs| && StripLower(xs[k]) == x)
      && (forall i, j :: 0 <= i < j < |r| ==> r[i] != r[j])
      && |r| <= Cap(maxN)
      && (maxN >= 1 ==> |r| <= maxN)
      && IsSubseq(r, Cleaned(xs))
      && (|r| < Cap(maxN) ==> forall k :: 0 <= k < |xs| && StripLower(xs[k]) != "" ==> StripLower(xs[k]) in r)
  {
    var c := Cleaned(xs);
    var d := DedupeBy(c, Id);
    var r := NormalizedInterests(xs, maxN);
    DedupeSubseq(c, Id);
    SubseqBounds(d, c);
    DedupeUniqueKeys(c, Id);
    CleanedFrom(xs);
    assert r == d[..|r|];
    forall x | x in r ensures x in d {
      var m :| 0 <= m < |r| && r[m] == x;
      assert d[m] == x;
    }
    PrefixSubseq(d, |r|);
    SubseqTrans(r, d, c);
    if |r| < Cap(maxN) {
      assert r == d;
      DedupeKeySet(c, Id);
      CleanedCovers(xs);
      forall k | 0 <= k < |xs| && StripLower(xs[k]) != "" ensures StripLower(xs[k]) in r {
        var t := StripLower(xs[k]);
        assert t in c;
        assert Id(t) in KeySet(c, Id);
        assert Id(t) in KeySet(d, Id);
      }
    }
  }

  /** The interests are the first of the cleaned, first-occurrence-deduplicated entries, and
      they keep the order of first occurrence: an entry equal to a later interest always comes
      after an entry equal to each earlier one. */
  lemma NormalizedInterestsOrder(xs: seq<string>, maxN: int)
    ensures var r := NormalizedInterests(xs, maxN);
      && r == DedupeBy(Cleaned(xs), Id)[..|r|]
      && forall i, j, k :: 0 <= i < j < |r| && 0 <= k < |Cleaned(xs)| && Cleaned(xs)[k] == r[j] ==>
           r[i] in Cleaned(xs)[..k]
  {
    var c := Cleaned(xs);
    var d := DedupeBy(c, Id);
    var r := NormalizedInterests(xs, maxN);
    assert r == d[..|r|];
    forall i, j, k | 0 <= i < j < |r| && 0 <= k < |c| && c[k] == r[j] ensures r[i] in c[..k] {
      assert r[i] == d[i] && r[j] == d[j];
      DedupeFirstOrderAt(c, Id, i, j, k);
    }
  }

  /** Normalising an already normalised list changes nothing. */
  lemma NormalizeIdempotent(xs: seq<string>, maxN: int)
    ensures NormalizedInterests(NormalizedInterests(xs, maxN), maxN) == NormalizedInterests(xs, maxN)
  {
    var r := NormalizedInterests(xs, maxN);
    NormalizedInterestsShape(xs, maxN);
    CleanedOfCanonical(r);
    DedupeOfDistinct(r, Id);
  }

  // ---------------------------------------------------------------------------------------------
  // looks_uncertain

  const UncertainPhrases: seq<string> := ["maybe", "possibly", "not sure", "unsure", "likely", "looks like"]

  /** A character `\w` matches, for ASCII text. */
  predicate IsWordChar(c: char) {
    'a' <= c <= 'z' || 'A' <= c <= 'Z' || '0' <= c <= '9' || c == '_'
  }

  /** `\b<p>\b` matches at position `i` of `t`, for a phrase `p` that begins and ends with a
      letter: `p` occurs there and is not glued to a word character on either side. */
  predicate PhraseAt(t: string, p: string, i: int) {
    OccursAt(t, p, i)
    && (i == 0 || !IsWordChar(t[i - 1]))
    && (i + |p| == |t| || !IsWordChar(t[i + |p|]))
  }

  /** `re.search` from position `k` on. */
  function PhraseFrom(t: string, p: string, k: nat): (r: bool)
    ensures r <==> exists i :: k <= i && PhraseAt(t, p, i)
    decreases |t| - k
  {
    if k + |p| > |t| then false else PhraseAt(t, p, k) || PhraseFrom(t, p, k + 1)
  }

  /** `looks_uncertain(text)`: the lower-cased text contains one of the hedging phrases as
      whole words. */
  function LooksUncertain(text: string): (r: bool)
    ensures r <==> exists p, i :: p in UncertainPhrases && PhraseAt(Lower(text), p, i)
  {
    exists p | p in UncertainPhrases :: PhraseFrom(Lower(text), p, 0)
  }

  // ---------------------------------------------------------------------------------------------
  // safe_lists

  /** Caps the lists of a recognition result: 6 tags, 3 questions, 2 facts of each kind and 3
      candidates, an absent candidate list becoming empty; every capped list is a prefix of the
      original. */
  method SafeLists(res: IdentifyResponse)
    modifies res, res.funFacts
    ensures res.tags == SliceTo(old(res.tags), 6)
    ensures res.suggestedQuestions == SliceTo(old(res.suggestedQuestions), 3)
    ensures res.funFacts.matchFacts == SliceTo(old(res.funFacts.matchFacts), 2)
    ensures res.funFacts.discoveryFacts == SliceTo(old(res.funFacts.discoveryFacts), 2)
    ensures res.candidates == Some(SliceTo(old(res.candidates).GetOr([]), 3))
    ensures res.landmarkName == old(res.landmarkName) && res.location == old(res.location)
    ensures res.description == old(res.description) && res.confidenceScore == old(res.confidenceScore)
    ensures res.needsConfirmation == old(res.needsConfirmation)
  {
    res.tags := SliceTo(res.tags, 6);
    res.suggestedQuestions := SliceTo(res.suggestedQuestions, 3);
    res.funFacts.matchFacts := SliceTo(res.funFacts.matchFacts, 2);
    res.funFacts.discoveryFacts := SliceTo(res.funFacts.discoveryFacts, 2);
    var candidates := res.candidates.GetOr([]);
    res.candidates := Some(SliceTo(candidates, 3));
  }

  // ---------------------------------------------------------------------------------------------
  // finalize_confidence

  /** An empty name, or one that reads "unknown" or "uncertain" in any ASCII case. */
  predicate IsPlaceholderName(name: string) {
    name == "" || Lower(name) == "unknown" || Lower(name) == "uncertain"
  }

  predicate LowConfidenceSignal(name: string, description: string) {
    IsPlaceholderName(name) || LooksUncertain(description)
  }

  /** The score given when the recogniser gave none: it falls below the confirmation threshold
      exactly when the name is a placeholder or the description hedges. */
  function InferredScore(name: string, description: string): (r: real)
    ensures r == 0.55 || r == 0.80
    ensures r < ConfirmThreshold <==> LowConfidenceSignal(name, description)
  {
    if LowConfidenceSignal(name, description) then 0.55 else 0.80
  }

  /** The text the interests are matched against: the tags joined with spaces, lower-cased. */
  function TagsText(tags: seq<string>): string {
    Lower(Join(tags, " "))
  }

  /** The interests that occur (as substrings) in `text`, in their order. */
  function MatchedInterests(interests: seq<string>, text: string): (r: seq<string>)
    ensures forall x :: x in r <==> x in interests && Contains(text, x)
    decreases |interests|
  {
    if interests == [] then []
    else
      var init, x := interests[..|interests| - 1], interests[|interests| - 1];
      assert interests == init + [x];
      var m := MatchedInterests(init, text);
      if Contains(text, x) then m + [x] else m
  }

  /** The matched interests form a sub-list of the interests, in their order. */
  lemma {:induction false} MatchedInterestsSublist(interests: seq<string>, text: string)
    ensures IsSubseq(MatchedInterests(interests, text), interests)
    decreases |interests|
  {
    if interests == [] {
      SubseqSelf(interests);
    } else {
      var init, x := interests[..|interests| - 1], interests[|interests| - 1];
      assert interests == init + [x];
      var m := MatchedInterests(init, text);
      MatchedInterestsSublist(init, text);
      SubseqExtend(m, init, x);
      if Contains(text, x) {
        assert IsSubseq(m + [x], interests) by {
          assert (m + [x])[..|m + [x]| - 1] == m;
        }
      }
    }
  }

  /** Fills in the confidence score when absent, sets `needs_confirmation` from the threshold,
      seeds the candidates with the landmark name when confirmation is needed and there are none,
      and records which interests appear in the tags. */
  method FinalizeConfidence(res: IdentifyResponse, finalInterests: seq<string>)
    modifies res, res.personalization
    ensures old(res.confidenceScore).Some? ==> res.confidenceScore == old(res.confidenceScore)
    ensures old(res.confidenceScore).None? ==>
      res.confidenceScore == Some(InferredScore(res.landmarkName, res.description))
    ensures res.needsConfirmation == Some(res.confidenceScore.value < ConfirmThreshold)
    ensures res.candidates ==
      if res.confidenceScore.value < ConfirmThreshold && old(res.candidates).GetOr([]) == [] && res.landmarkName != ""
      then Some([res.landmarkName]) else old(res.candidates)
    ensures res.personalization.matchedInterest == MatchedInterests(finalInterests, TagsText(res.tags))
    ensures res.personalization.ageBracket == old(res.personalization.ageBracket)
    ensures res.landmarkName == old(res.landmarkName) && res.location == old(res.location)
    ensures res.tags == old(res.tags) && res.description == old(res.description)
    ensures res.suggestedQuestions == old(res.suggestedQuestions)
  {
    if res.confidenceScore.None? {
      var low := res.landmarkName == "" || Lower(res.landmarkName) in {"unknown", "uncertain"};
      if low || LooksUncertain(res.description) {
        res.confidenceScore := Some(0.55);
      } else {
        res.confidenceScore := Some(0.80);
      }
    }
    if res.confidenceScore.value < ConfirmThreshold {
      res.needsConfirmation := Some(true);
      if res.candidates.GetOr([]) == [] {
        if res.landmarkName != "" {
          res.candidates := Some([res.landmarkName]);
        }
      }
    } else {
      res.needsConfirmation := Some(false);
    }
    var tagsText := Lower(Join(res.tags, " "));
    res.personalization.matchedInterest := MatchedInterests(finalInterests, tagsText);
  }

  // ---------------------------------------------------------------------------------------------
  // identify_landmark

  /** The age bracket used for the request: the explicit one, else the stored profile's (only
      looked up for a signed-in user), else "adult". */
  function ResolvedAge(userId: Option<string>, ageBracket: Option<string>, stored: Option<Queries.Profile>): (r: string)
    ensures Truthy(ageBracket) ==> r == ageBracket.value
    ensures !Truthy(ageBracket) && Truthy(userId) && stored.Some? && Truthy(stored.value.ageBracket) ==>
      r == stored.value.ageBracket.value
    ensures !Truthy(ageBracket) && !(Truthy(userId) && stored.Some? && Truthy(stored.value.ageBracket)) ==>
      r == "adult"
  {
    if Truthy(ageBracket) then ageBracket.value
    else if Truthy(userId) && stored.Some? && Truthy(stored.value.ageBracket) then stored.value.ageBracket.value
    else "adult"
  }

  /** The interests used for the request: the stored profile's only when the request list is
      empty and a signed-in user has a profile. */
  function ResolvedInterests(userId: Option<string>, interests: seq<string>, stored: Option<Queries.Profile>): (r: seq<string>)
    ensures interests != [] ==> r == NormalizedInterests(interests, MaxInterests)
    ensures interests == [] && Truthy(userId) && stored.Some? ==>
      r == NormalizedInterests(stored.value.interests, MaxInterests)
    ensures interests == [] && !(Truthy(userId) && stored.Some?) ==> r == []
  {
    if interests == [] && Truthy(userId) && stored.Some? then NormalizedInterests(stored.value.interests, MaxInterests)
    else NormalizedInterests(interests, MaxInterests)
  }

  /** The profile-resolution step of `identify_landmark`: request values first, the stored
      profile (looked up only for a signed-in user) as fallback, then the defaults. */
  method ResolveProfile(userId: Option<string>, ageBracket: Option<string>, interests: seq<string>,
                        stored: Option<Queries.Profile>)
    returns (finalAge: string, finalInterests: seq<string>)
    ensures finalAge == ResolvedAge(userId, ageBracket, stored)
    ensures finalInterests == ResolvedInterests(userId, interests, stored)
  {
    finalAge := if Truthy(ageBracket) then ageBracket.value else "adult";
    finalInterests := NormalizeInterests(interests, MaxInterests);
    if Truthy(userId) {
      var profile := stored;
      if profile.Some? {
        if !Truthy(ageBracket) {
          finalAge := if Truthy(profile.value.ageBracket) then profile.value.ageBracket.value else finalAge;
        }
        if interests == [] {
          finalInterests := NormalizeInterests(profile.value.interests, MaxInterests);
        }
      }
    }
  }

  /** `identify:{age}:{interests joined by ","}:{image length}:{hex of the first 64 bytes}`. */
  function IdentifyCacheKey(age: string, interests: seq<string>, image: seq<byte>): string {
    "identify:" + age + ":" + Join(interests, ",") + ":" + Decimal(|image|) + ":" + Hex(SliceTo(image, 64))
  }

  /** The cache key cut at its four ':' separators. */
  lemma CacheKeyShape(age: string, interests: seq<string>, image: seq<byte>)
    ensures IdentifyCacheKey(age, interests, image) ==
      (("identify" + [':'] + (age + [':'] + Join(interests, ","))) + [':'] + Decimal(|image|)) + [':'] + Hex(SliceTo(image, 64))
  {
    assert ":" == [':'];
  }

  /** Two requests share a cache entry only if they agree on the age bracket, the interests, the
      image length and the first 64 image bytes (for age brackets without ':' and interests that
      are non-empty and hold no ','). */
  lemma CacheKeyInjective(age1: string, ints1: seq<string>, img1: seq<byte>,
                          age2: string, ints2: seq<string>, img2: seq<byte>)
    requires ':' !in age1 && ':' !in age2
    requires forall x :: x in ints1 ==> x != "" && ',' !in x
    requires forall x :: x in ints2 ==> x != "" && ',' !in x
    requires IdentifyCacheKey(age1, ints1, img1) == IdentifyCacheKey(age2, ints2, img2)
    ensures age1 == age2 && ints1 == ints2
    ensures |img1| == |img2| && SliceTo(img1, 64) == SliceTo(img2, 64)
  {
    var j1, j2 := Join(ints1, ","), Join(ints2, ",");
    var d1, d2 := Decimal(|img1|), Decimal(|img2|);
    var h1, h2 := Hex(SliceTo(img1, 64)), Hex(SliceTo(img2, 64));
    assert age1 == age2 && j1 == j2 && d1 == d2 && h1 == h2 by {
      CacheKeyShape(age1, ints1, img1);
      CacheKeyShape(age2, ints2, img2);
      assert ':' !in d1 && ':' !in d2 && ':' !in h1 && ':' !in h2;
      CacheKeyFields(age1, j1, d1, h1, age2, j2, d2, h2);
    }
    assert ints1 == ints2 by {
      assert "," == [','];
      JoinInjective(ints1, ints2, ',');
    }
    DecimalInjective(|img1|, |img2|);
    HexRoundTrip(SliceTo(img1, 64));
    HexRoundTrip(SliceTo(img2, 64));
  }

  /** The four fields of a cache key are read back from it, when the age bracket, the length
      and the sample hold no ':' (the interests may). */
  lemma CacheKeyFields(age1: string, j1: string, d1: string, h1: string,
                       age2: string, j2: string, d2: string, h2: string)
    requires ':' !in age1 && ':' !in age2 && ':' !in d1 && ':' !in d2 && ':' !in h1 && ':' !in h2
    requires (("identify" + [':'] + (age1 + [':'] + j1)) + [':'] + d1) + [':'] + h1
          == (("identify" + [':'] + (age2 + [':'] + j2)) + [':'] + d2) + [':'] + h2
    ensures age1 == age2 && j1 == j2 && d1 == d2 && h1 == h2
  {
    var y1, y2 := "identify" + [':'] + (age1 + [':'] + j1), "identify" + [':'] + (age2 + [':'] + j2);
    SplitAtLast(y1 + [':'] + d1, h1, y2 + [':'] + d2, h2, ':');
    SplitAtLast(y1, d1, y2, d2, ':');
    SplitAtFirst("identify", age1 + [':'] + j1, "identify", age2 + [':'] + j2, ':');
    SplitAtFirst(age1, j1, age2, j2, ':');
  }

  /** An exception raised while identifying: `ValueError` (an empty or malformed recogniser
      reply) or any other. */
  datatype ServiceError = BadValue(message: string) | Failure(message: string)

  /** What the recogniser call produced for the request. */
  datatype RecognizerReply = Identified(res: IdentifyResponse) | Raised(error: ServiceError)

  /** What `safe_lists` followed by `finalize_confidence` make of a response: the lists capped,
      a missing score inferred, the confirmation flag set from the threshold, the name offered as
      the only candidate when confirmation is needed and there are none, and the interests found
      in the capped tags recorded. */
  function Processed(v: ResponseView, interests: seq<string>): ResponseView {
    var tags := SliceTo(v.tags, 6);
    var capped := SliceTo(v.candidates.GetOr([]), 3);
    var score := if v.confidenceScore.Some? then v.confidenceScore.value else InferredScore(v.landmarkName, v.description);
    var needs := score < ConfirmThreshold;
    v.(tags := tags,
       suggestedQuestions := SliceTo(v.suggestedQuestions, 3),
       matchFacts := SliceTo(v.matchFacts, 2),
       discoveryFacts := SliceTo(v.discoveryFacts, 2),
       confidenceScore := Some(score),
       needsConfirmation := Some(needs),
       candidates := Some(if needs && capped == [] && v.landmarkName != "" then [v.landmarkName] else capped),
       matchedInterest := MatchedInterests(interests, TagsText(tags)))
  }

  /** A response as the service hands it out: lists within their caps, a score present, the
      confirmation flag agreeing with the threshold, at least one candidate whenever confirmation
      is needed and the name is not empty, and the matched interests those found in the tags. */
  predicate IsFinal(v: ResponseView, interests: seq<string>) {
    && |v.tags| <= 6 && |v.suggestedQuestions| <= 3
    && |v.matchFacts| <= 2 && |v.discoveryFacts| <= 2
    && v.candidates.Some? && |v.candidates.value| <= 3
    && v.confidenceScore.Some?
    && v.needsConfirmation == Some(v.confidenceScore.value < ConfirmThreshold)
    && (v.needsConfirmation.value && v.landmarkName != "" ==> v.candidates.value != [])
    && v.matchedInterest == MatchedInterests(interests, TagsText(v.tags))
  }

  /** Post-processing leaves a response final, and changes a response exactly when it is not
      final yet: the final responses are its fixed points. */
  lemma ProcessedFixpoint(v: ResponseView, interests: seq<string>)
    ensures IsFinal(Processed(v, interests), interests)
    ensures Processed(v, interests) == v <==> IsFinal(v, interests)
  {
    var p := Processed(v, interests);
    assert IsFinal(p, interests);
    if IsFinal(v, interests) {
      assert SliceTo(v.tags, 6) == v.tags;
      assert SliceTo(v.candidates.value, 3) == v.candidates.value;
      assert p.candidates == v.candidates;
      assert p.tags == v.tags;
    }
  }

  /** Post-processing a second time changes nothing. */
  lemma ProcessedIdempotent(v: ResponseView, interests: seq<string>)
    ensures Processed(Processed(v, interests), interests) == Processed(v, interests)
  {
    ProcessedFixpoint(v, interests);
    ProcessedFixpoint(Processed(v, interests), interests);
  }

  /** The post-processing of a fresh recogniser result: `safe_lists`, then
      `finalize_confidence` with the resolved interests. */
  method PostProcess(res: IdentifyResponse, interests: seq<string>)
    modifies res, res.funFacts, res.personalization
    ensures res.View() == Processed(old(res.View()), interests)
  {
    SafeLists(res);
    FinalizeConfidence(res, interests);
  }

  /** The cache-miss path of `identify_landmark`: a raised error passes through and caches
      nothing; a result is post-processed and cached under `key` for an hour. */
  method Recognize(cache: Cache.TtlCache<IdentifyResponse>, now: real, key: string,
                   interests: seq<string>, reply: RecognizerReply)
    returns (r: Result<IdentifyResponse, ServiceError>)
    modifies cache
    modifies if reply.Identified? then {reply.res, reply.res.funFacts, reply.res.personalization} else {}
    ensures reply.Raised? ==> r == Err(reply.error) && cache.entries == old(cache.entries)
    ensures reply.Identified? ==>
      && r == Ok(reply.res)
      && cache.entries == old(cache.entries)[key := Cache.Entry(now + IdentifyTtl as real, reply.res)]
      && reply.res.View() == Processed(old(reply.res.View()), interests)
  {
    match reply
    case Raised(e) =>
      return Err(e);
    case Identified(res) =>
      PostProcess(res, interests);
      cache.Set(key, res, IdentifyTtl, now);
      return Ok(res);
  }

  /** `identify_landmark`: resolve the request against the stored profile, answer from the
      cache when a live entry exists, otherwise post-process the recogniser's result and cache
      it for an hour; a raised error passes through and caches nothing. */
  method IdentifyLandmark(cache: Cache.TtlCache<IdentifyResponse>, now: real, image: seq<byte>,
                          userId: Option<string>, ageBracket: Option<string>, interests: seq<string>,
                          stored: Option<Queries.Profile>, reply: RecognizerReply)
    returns (r: Result<IdentifyResponse, ServiceError>)
    modifies cache
    modifies if reply.Identified? then {reply.res, reply.res.funFacts, reply.res.personalization} else {}
    ensures var finalInterests := ResolvedInterests(userId, interests, stored);
      var key := IdentifyCacheKey(ResolvedAge(userId, ageBracket, stored), finalInterests, image);
      var hit := Cache.Lookup(old(cache.entries), key, now);
      && (hit.Some? ==> r == Ok(hit.value) && cache.entries == old(cache.entries))
      && (hit.Some? && reply.Identified? ==> reply.res.View() == old(reply.res.View()))
      && (hit.None? && reply.Raised? ==>
            r == Err(reply.error) && cache.entries == Cache.AfterGet(old(cache.entries), key, now))
      && (hit.None? && reply.Identified? ==>
            && r == Ok(reply.res)
            && cache.entries == Cache.AfterGet(old(cache.entries), key, now)[key := Cache.Entry(now + IdentifyTtl as real, reply.res)]
            && reply.res.View() == Processed(old(reply.res.View()), finalInterests))
  {
    var finalAge, finalInterests := ResolveProfile(userId, ageBracket, interests, stored);
    var cacheKey := IdentifyCacheKey(finalAge, finalInterests, image);
    assert cacheKey == IdentifyCacheKey(ResolvedAge(userId, ageBracket, stored), ResolvedInterests(userId, interests, stored), image);
    var cached := cache.Get(cacheKey, now);
    if cached.Some? {
      return Ok(cached.value);
    }
    r := Recognize(cache, now, cacheKey, finalInterests, reply);
  }
}
