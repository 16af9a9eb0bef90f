/** What the hashes of a published revision determine. */
module HashCoverage {
  import opened Text
  import opened CanonicalJson
  import opened JsonParser
  import opened TextNormalization
  import opened CanonicalRevision
  import opened HashChain
  import opened AcceptedRevisions

  // ----- records of resources

  lemma {:induction false} SameBody(a: VerifiedResource, b: VerifiedResource)
    ensures SameValue(BodyValue(a), BodyValue(b)) <==> a.path == b.path && a.content == b.content
  {
    KeysAreDistinct();
    var vs, ws := [Chars(a.path), Chars(a.content)], [Chars(b.path), Chars(b.content)];
    SameRecordSameValues(BODY_KEYS, vs, ws);
    if SameValue(BodyValue(a), BodyValue(b)) {
      assert SameValue(vs[0], ws[0]) && SameValue(vs[1], ws[1]);
    }
  }

  lemma {:induction false} SameManifests(a: seq<VerifiedResource>, b: seq<VerifiedResource>)
    ensures SameValue(Each(a, ManifestValue), Each(b, ManifestValue))
            && SameValue(Each(a, BodyValue), Each(b, BodyValue))
       <==> a == b
  {
    hide ManifestValue, BodyValue;
    var xs, ys := Each(a, ManifestValue).items, Each(b, ManifestValue).items;
    var us, ws := Each(a, BodyValue).items, Each(b, BodyValue).items;
    forall i | 0 <= i < |a| && i < |b|
      ensures SameValue(xs[i], ys[i]) && SameValue(us[i], ws[i]) <==> a[i] == b[i]
    {
      SameManifest(a[i], b[i]);
      SameBody(a[i], b[i]);
    }
    SameItems(xs, ys);
    SameItems(us, ws);
  }

  // ----- the bundle hash

  /** Everything a revision says but its own hashes; provenance counts up to the order of keys. */
  predicate SameContent(a: SkillRevision, b: SkillRevision) {
    && a.skillId == b.skillId && a.revision == b.revision
    && SameValue(a.publishedProvenance, b.publishedProvenance)
    && a.instructions == b.instructions && a.resources == b.resources
  }

  lemma {:induction false} SamePayload(a: SkillRevision, b: SkillRevision)
    ensures SameValue(CanonicalPayload(a), CanonicalPayload(b)) <==> SameContent(a, b)
  {
    hide Each, Zip, SameValue;
    KeysAreDistinct();
    var vs, ws := PayloadValues(a), PayloadValues(b);
    SameRecordSameValues(PAYLOAD_KEYS, vs, ws);
    SameManifests(a.resources, b.resources);
    forall i | i in {0, 1, 2, 4}
      ensures SameValue(vs[i], ws[i]) <==> vs[i] == ws[i]
    {
      SameScalar(vs[i], ws[i]);
    }
    assert (forall i :: 0 <= i < |vs| ==> SameValue(vs[i], ws[i])) ==>
             SameValue(vs[1], ws[1]) && SameValue(vs[2], ws[2]) && SameValue(vs[3], ws[3])
             && SameValue(vs[4], ws[4]) && SameValue(vs[5], ws[5]) && SameValue(vs[6], ws[6]);
  }

  lemma {:induction false} PayloadWellFormed(r: SkillRevision)
    requires WellFormed(r.publishedProvenance)
    ensures WellFormed(CanonicalPayload(r))
  {
    hide Each, Zip, WellFormed;
    KeysAreDistinct();
    ResourceListRecord(r.resources);
    BodiesWellFormed(r.resources);
    var vs := PayloadValues(r);
    RecordWellFormedPrintable(PAYLOAD_KEYS, vs);
    forall i | 0 <= i < |vs|
      ensures WellFormed(vs[i])
    {
      if i in {1, 2, 4} {
        CharsArePlain(vs[i]);
      } else if i == 0 {
        OneIsPlain();
      }
    }
  }

  /** The text under the bundle hash of a revision. */
  function BundleText(r: SkillRevision): Str { CanonicalText(CanonicalPayload(r)) }

  lemma {:induction false} BundleHashed(p: Platform, input: RevisionInput)
    requires CreateSkillRevision(p, input).Success?
    ensures var r := CreateSkillRevision(p, input).value;
            && r.skillId == input.skillId && r.revision == input.revision
            && r.publishedProvenance == input.publishedProvenance
            && Canonicalize(CanonicalPayload(r)) == Success(BundleText(r))
            && r.bundleSha256 == p.sha256Hex(BundleText(r))
            && r.instructionsSha256 == p.sha256Hex(r.instructions)
  {
    hide GatherTexts, Canonicalize, CanonicalText;
    var r := CreateSkillRevision(p, input).value;
    assert CanonicalPayload(r) == CanonicalPayload(r.(bundleSha256 := []));
    PrintedText(CanonicalPayload(r));
  }

  lemma {:induction false} PrintedText(v: Value)
    ensures Canonicalize(v).Success? ==> Canonicalize(v).value == CanonicalText(v)
  {}

  /** Two created revisions with one bundle hash say the same, or the texts under their hashes
      collide; and revisions that say the same have one bundle hash. */
  lemma {:induction false} BundleHashCovers(p: Platform, x: RevisionInput, y: RevisionInput)
    requires CreateSkillRevision(p, x).Success? && CreateSkillRevision(p, y).Success?
    requires WellFormed(x.publishedProvenance) && WellFormed(y.publishedProvenance)
    ensures var a, b := CreateSkillRevision(p, x).value, CreateSkillRevision(p, y).value;
            && (SameContent(a, b) ==> a.bundleSha256 == b.bundleSha256)
            && (a.bundleSha256 == b.bundleSha256 ==>
                  SameContent(a, b) || Collide(p.sha256Hex, BundleText(a), BundleText(b)))
  {
    hide CreateSkillRevision, Canonicalize, CanonicalPayload, WellFormed, SameValue, CanonicalText;
    var a, b := CreateSkillRevision(p, x).value, CreateSkillRevision(p, y).value;
    BundleHashed(p, x);
    BundleHashed(p, y);
    PayloadWellFormed(a);
    PayloadWellFormed(b);
    CanonicalizeInjective(CanonicalPayload(a), CanonicalPayload(b));
    SamePayload(a, b);
  }

  // ----- the record under the bundle hash, by name

  /** The names under which the hashed record holds what a revision says. */
  lemma {:induction false} PayloadSays(r: SkillRevision)
    ensures var v := CanonicalPayload(r);
            && v.Obj? && |v.fields| == 7
            && HasField(v, "schemaVersion", Num(1)) && HasField(v, "skillId", Chars(r.skillId))
            && HasField(v, "revision", Chars(r.revision)) && HasField(v, "publishedProvenance", r.publishedProvenance)
            && HasField(v, "instructions", Chars(r.instructions))
            && HasField(v, "resourceManifest", Each(r.resources, ManifestValue))
            && HasField(v, "resources", Each(r.resources, BodyValue))
    ensures forall q: VerifiedResource ::
              && HasField(ManifestValue(q), "path", Chars(q.path))
              && HasField(ManifestValue(q), "byteLength", Num(q.byteLength))
              && HasField(ManifestValue(q), "mediaType", Chars(
                   if q.mediaType == Markdown then Ascii("text/markdown") else Ascii("text/plain")))
              && HasField(ManifestValue(q), "sha256", Chars(q.sha256)) && |ManifestValue(q).fields| == 4
              && HasField(BodyValue(q), "path", Chars(q.path)) && HasField(BodyValue(q), "content", Chars(q.content))
              && |BodyValue(q).fields| == 2
  {
    var fs, vs := CanonicalPayload(r).fields, PayloadValues(r);
    hide Each, ManifestValue, BodyValue;
    assert fs[0] == Field(Ascii("schemaVersion"), vs[0]) && fs[1] == Field(Ascii("skillId"), vs[1]);
    assert fs[2] == Field(Ascii("revision"), vs[2]) && fs[3] == Field(Ascii("publishedProvenance"), vs[3]);
    assert fs[4] == Field(Ascii("instructions"), vs[4]) && fs[5] == Field(Ascii("resourceManifest"), vs[5]);
    assert fs[6] == Field(Ascii("resources"), vs[6]);
    forall q: VerifiedResource {
      ResourceSays(q);
    }
  }

  lemma {:induction false} ResourceSays(q: VerifiedResource)
    ensures HasField(ManifestValue(q), "path", Chars(q.path))
    ensures HasField(ManifestValue(q), "byteLength", Num(q.byteLength))
    ensures HasField(ManifestValue(q), "mediaType", Chars(
                   if q.mediaType == Markdown then Ascii("text/markdown") else Ascii("text/plain")))
    ensures HasField(ManifestValue(q), "sha256", Chars(q.sha256)) && |ManifestValue(q).fields| == 4
    ensures HasField(BodyValue(q), "path", Chars(q.path)) && HasField(BodyValue(q), "content", Chars(q.content))
    ensures |BodyValue(q).fields| == 2
  {
    var fs, gs := ManifestValue(q).fields, BodyValue(q).fields;
    assert fs[0] == Field(Ascii("path"), Chars(q.path));
    assert fs[1] == Field(Ascii("mediaType"), Chars(MediaText(q.mediaType)));
    assert fs[2] == Field(Ascii("byteLength"), Num(q.byteLength)) && fs[3] == Field(Ascii("sha256"), Chars(q.sha256));
    assert gs[0] == Field(Ascii("path"), Chars(q.path)) && gs[1] == Field(Ascii("content"), Chars(q.content));
  }
}
