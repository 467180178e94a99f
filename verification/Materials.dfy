/**
 The byte materials that package roots and attestations hash and sign: lists of
 length-prefixed fields, built so that one byte string is the material of one list only.
 */
module Materials {
  import opened Base
  import opened Bytes

  /** The UTF-8 bytes of a string. */
  type Text = seq<Byte>

  const LENGTH_LIMIT: nat := 0x1_0000_0000

  function Ascii(s: string): (t: Text)
    ensures |t| == |s|
  {
    seq(|s|, i requires 0 <= i < |s| => s[i] as int % 256)
  }

  // --------------------------------------------------------------------- framing

  function Framed(field: Text): seq<Byte> {
    BigEndian(|field|, 4) + field
  }

  /** The material of a list of fields. */
  function Frame(fields: seq<Text>): seq<Byte> {
    if |fields| == 0 then [] else Framed(fields[0]) + Frame(fields[1..])
  }

  ghost predicate Short(fields: seq<Text>) {
    forall f :: f in fields ==> |f| < LENGTH_LIMIT
  }

  /** The first field can be read off the front of the material. */
  lemma FirstField(field: Text, rest: seq<Byte>)
    requires |field| < LENGTH_LIMIT
    ensures var m := Framed(field) + rest;
      && |m| >= 4 + |field|
      && FromBigEndian(m[..4]) == |field|
      && m[4..4 + |field|] == field
      && m[4 + |field|..] == rest
  {
    PowWidths();
    DecodesEncoded(|field|, 4);
    hide BigEndian, FromBigEndian;
    var m := Framed(field) + rest;
    assert m[..4] == BigEndian(|field|, 4);
  }

  /** A material has one reading: equal materials are of equal lists, of any lengths. */
  lemma {:induction false} FrameInjective(xs: seq<Text>, ys: seq<Text>)
    requires Short(xs) && Short(ys) && Frame(xs) == Frame(ys)
    ensures xs == ys
  {
    if |xs| > 0 {
      assert xs[0] in xs;
      FirstField(xs[0], Frame(xs[1..]));
    }
    if |ys| > 0 {
      assert ys[0] in ys;
      FirstField(ys[0], Frame(ys[1..]));
    }
    if |xs| > 0 && |ys| > 0 {
      hide Framed, FromBigEndian;
      assert Short(xs[1..]) && Short(ys[1..]);
      FrameInjective(xs[1..], ys[1..]);
      assert xs == [xs[0]] + xs[1..] && ys == [ys[0]] + ys[1..];
    }
  }

  lemma {:induction false} FrameAppend(fields: seq<Text>, f: Text)
    ensures Frame(fields + [f]) == Frame(fields) + Framed(f)
  {
    hide Framed;
    if |fields| == 0 {
      assert fields + [f] == [f] && [f][1..] == [];
    } else {
      FrameAppend(fields[1..], f);
      assert (fields + [f])[1..] == fields[1..] + [f];
    }
  }

  /** `push_length_prefixed` over a list of fields; none if a field is too long. */
  method PushAll(start: seq<Byte>, fields: seq<Text>) returns (output: Option<seq<Byte>>)
    ensures output == if Short(fields) then Some(start + Frame(fields)) else None
  {
    hide Framed;
    var buffer := start;
    assert fields[..0] == [];
    for n := 0 to |fields|
      invariant Short(fields[..n]) && buffer == start + Frame(fields[..n])
    {
      var f := fields[n];
      if |f| >= LENGTH_LIMIT {
        return None;
      }
      assert fields[..n + 1] == fields[..n] + [f];
      FrameAppend(fields[..n], f);
      buffer := buffer + Framed(f);
    }
    assert fields[..|fields|] == fields;
    output := Some(buffer);
  }

  // --------------------------------------------------------------------- attestations

  const ATTESTATION_SCHEMA := "causal-assurance-attestation/v2"
  const SIGNATURE_SCHEMA := "causal-assurance-attestation-signature/v1"

  datatype ReviewDecision = Confirmed | Rejected | Abstained {
    function AsText(): Text {
      match this
      case Confirmed => Ascii("CONFIRMED")
      case Rejected => Ascii("REJECTED")
      case Abstained => Ascii("ABSTAINED")
    }
  }

  datatype Review = Review(certificateDigest: Text, reviewerId: Text, decision: ReviewDecision, scopeDigest: Text)

  function AttestationFields(r: Review): seq<Text> {
    [Ascii(ATTESTATION_SCHEMA), r.certificateDigest, r.reviewerId, r.decision.AsText(), r.scopeDigest]
  }

  function SignatureFields(attestationDigest: Text, keyId: Text): seq<Text> {
    [Ascii(SIGNATURE_SCHEMA), attestationDigest, keyId]
  }

  lemma DecisionsDiffer(a: ReviewDecision, b: ReviewDecision)
    ensures a.AsText() == b.AsText() ==> a == b
  {
    assert Ascii("CONFIRMED")[0] == 67 && Ascii("ABSTAINED")[0] == 65;
    assert |Ascii("REJECTED")| == 8;
  }

  /** One attestation material is the material of one review. */
  lemma AttestationMaterialInjective(a: Review, b: Review)
    requires Short(AttestationFields(a)) && Short(AttestationFields(b))
    requires Frame(AttestationFields(a)) == Frame(AttestationFields(b))
    ensures a == b
  {
    FrameInjective(AttestationFields(a), AttestationFields(b));
    hide Frame, Ascii, ReviewDecision.AsText;
    var x, y := AttestationFields(a), AttestationFields(b);
    assert x[1] == y[1] && x[2] == y[2] && x[3] == y[3] && x[4] == y[4];
    DecisionsDiffer(a.decision, b.decision);
  }

  lemma SignatureMaterialInjective(digest1: Text, key1: Text, digest2: Text, key2: Text)
    requires Short(SignatureFields(digest1, key1)) && Short(SignatureFields(digest2, key2))
    requires Frame(SignatureFields(digest1, key1)) == Frame(SignatureFields(digest2, key2))
    ensures digest1 == digest2 && key1 == key2
  {
    var x, y := SignatureFields(digest1, key1), SignatureFields(digest2, key2);
    FrameInjective(x, y);
    hide Frame;
    assert x[1] == y[1] && x[2] == y[2];
  }

  /** What is hashed as an attestation is never what is signed. */
  lemma MaterialsDisjoint(r: Review, digest: Text, key: Text)
    requires Short(AttestationFields(r)) && Short(SignatureFields(digest, key))
    ensures Frame(AttestationFields(r)) != Frame(SignatureFields(digest, key))
  {
    assert |AttestationFields(r)| == 5 && |SignatureFields(digest, key)| == 3;
    hide AttestationFields, SignatureFields, Frame;
    if Frame(AttestationFields(r)) == Frame(SignatureFields(digest, key)) {
      FrameInjective(AttestationFields(r), SignatureFields(digest, key));
    }
  }

  // ------------------------------------------------------------------ package roots

  const ROOT_SCHEMA := "causal-assurance-signed-root/v2"
  const PACKAGE_SCHEMA := "causal-assurance-portable-package/v2"

  datatype Artifact = Artifact(role: Text, bytes: seq<Byte>, sha256: Text, bindsTo: seq<Text>)

  datatype PackageError = InvalidShape | FieldTooLong | InvalidArtifact | DigestMismatch | BindingMismatch

  datatype RootResult = Root(fingerprint: Text) | Refused(error: PackageError)

  predicate HexDigit(b: Byte) {
    48 <= b <= 57 || 65 <= b <= 70 || 97 <= b <= 102
  }

  /** `valid_sha256`. */
  predicate ValidSha256(value: Text) {
    |value| == 71 && value[..7] == Ascii("sha256:") && forall i :: 7 <= i < 71 ==> HexDigit(value[i])
  }

  function Role(index: nat): Text
    requires index < 4
  {
    if index == 0 then Ascii("WITNESS")
    else if index == 1 then Ascii("EVIDENCE")
    else if index == 2 then Ascii("WORKBENCH")
    else Ascii("ATTESTATION")
  }

  function OneDigit(n: nat): Text
    requires n < 10
  {
    [48 + n]
  }

  function Digests(sha: seq<Byte> -> Text, artifacts: seq<Artifact>): seq<Text> {
    seq(|artifacts|, i requires 0 <= i < |artifacts| => sha(artifacts[i].bytes))
  }

  /** The fields of artifact `index`, given the digests so far. */
  function ArtifactFields(index: nat, digest: Text, earlier: seq<Text>): seq<Text>
    requires index < 4 && |earlier| < 10
  {
    [OneDigit(index), Role(index), digest, OneDigit(|earlier|)] + earlier
  }

  /** All fields of the first artifacts, whose digests are `digests`. */
  function ChainFields(digests: seq<Text>): seq<Text>
    requires |digests| <= 4
  {
    if |digests| == 0 then []
    else
      var i := |digests| - 1;
      ChainFields(digests[..i]) + ArtifactFields(i, digests[i], digests[..i])
  }

  function RootFields(runId: Text, subject: Text, digests: seq<Text>): seq<Text>
    requires |digests| <= 4
  {
    [Ascii(ROOT_SCHEMA), Ascii(PACKAGE_SCHEMA), runId, subject] + ChainFields(digests)
  }

  /** What is wrong with artifact `i`, if anything. */
  function Fault(sha: seq<Byte> -> Text, artifacts: seq<Artifact>, i: nat): Option<PackageError>
    requires i < |artifacts| <= 4
  {
    var a := artifacts[i];
    if a.role != Role(i) || !ValidSha256(a.sha256) then Some(InvalidArtifact)
    else if sha(a.bytes) != a.sha256 then Some(DigestMismatch)
    else if a.bindsTo != Digests(sha, artifacts[..i]) then Some(BindingMismatch)
    else None
  }

  predicate ShapeOk(blank: Text -> bool, runId: Text, subject: Text, artifacts: seq<Artifact>) {
    !blank(runId) && !blank(subject) && (|artifacts| == 3 || |artifacts| == 4)
  }

  /** Where the digest of artifact `i` stands among the fields of the chain. */
  function DigestAt(i: nat): nat
    requires i <= 4
  {
    if i == 0 then 2 else if i == 1 then 6 else if i == 2 then 11 else if i == 3 then 17 else 24
  }

  /** The length of a chain tells how many artifacts it has, and it holds every digest. */
  lemma {:induction false} ChainHolds(digests: seq<Text>)
    requires |digests| <= 4
    ensures |ChainFields(digests)| + 2 == DigestAt(|digests|)
    ensures forall i :: 0 <= i < |digests| ==>
      DigestAt(i) < |ChainFields(digests)| && ChainFields(digests)[DigestAt(i)] == digests[i]
  {
    if |digests| > 0 {
      var n := |digests| - 1;
      ChainHolds(digests[..n]);
      hide Role, OneDigit;
    }
  }

  /** Two packages with the same root material have the same run, subject, and artifact digests. */
  lemma RootMaterialInjective(run1: Text, subject1: Text, digests1: seq<Text>, run2: Text, subject2: Text,
                              digests2: seq<Text>)
    requires |digests1| <= 4 && |digests2| <= 4
    requires Short(RootFields(run1, subject1, digests1)) && Short(RootFields(run2, subject2, digests2))
    requires Frame(RootFields(run1, subject1, digests1)) == Frame(RootFields(run2, subject2, digests2))
    ensures run1 == run2 && subject1 == subject2 && digests1 == digests2
  {
    var x, y := RootFields(run1, subject1, digests1), RootFields(run2, subject2, digests2);
    FrameInjective(x, y);
    hide Frame, Ascii;
    assert x[2] == run1 && y[2] == run2 && x[3] == subject1 && y[3] == subject2;
    assert x[4..] == ChainFields(digests1) && y[4..] == ChainFields(digests2);
    ChainDetermines(digests1, digests2);
  }

  lemma ChainDetermines(digests1: seq<Text>, digests2: seq<Text>)
    requires |digests1| <= 4 && |digests2| <= 4 && ChainFields(digests1) == ChainFields(digests2)
    ensures digests1 == digests2
  {
    ChainHolds(digests1);
    ChainHolds(digests2);
    hide ChainFields;
    assert |digests1| == |digests2|;
    forall i | 0 <= i < |digests1| ensures digests1[i] == digests2[i] {
    }
  }

  lemma ChainShort(digests: seq<Text>)
    requires |digests| <= 4 && forall d :: d in digests ==> |d| == 71
    ensures Short(ChainFields(digests))
  {
    if |digests| > 0 {
      var i := |digests| - 1;
      assert forall d :: d in digests[..i] ==> d in digests;
      ChainShort(digests[..i]);
      assert digests[i] in digests;
      assert Short(ArtifactFields(i, digests[i], digests[..i]));
    }
  }

  /** The three checks of one artifact. */
  method CheckArtifact(sha: seq<Byte> -> Text, artifacts: seq<Artifact>, index: nat, recomputed: seq<Text>)
    returns (fault: Option<PackageError>)
    requires index < |artifacts| <= 4 && recomputed == Digests(sha, artifacts[..index])
    ensures fault == Fault(sha, artifacts, index)
  {
    hide Role, ValidSha256, Digests;
    var artifact := artifacts[index];
    if artifact.role != Role(index) || !ValidSha256(artifact.sha256) {
      return Some(InvalidArtifact);
    }
    if sha(artifact.bytes) != artifact.sha256 {
      return Some(DigestMismatch);
    }
    fault := if artifact.bindsTo != recomputed then Some(BindingMismatch) else None;
  }

  /** One artifact more in the material. */
  lemma FrameStep(head: seq<Text>, before: seq<Text>, actual: Text)
    requires |before| < 4
    ensures Frame(head + ChainFields(before)) + Frame(ArtifactFields(|before|, actual, before))
         == Frame(head + ChainFields(before + [actual]))
  {
    ChainStep(before, actual);
    hide Frame, ArtifactFields, ChainFields;
    FrameConcat(head + ChainFields(before), ArtifactFields(|before|, actual, before));
    var fields := ArtifactFields(|before|, actual, before);
    assert head + ChainFields(before) + fields == head + ChainFields(before + [actual]);
  }

  /** An artifact without fault binds the digests before it, and its own is a fingerprint. */
  lemma ArtifactKnown(sha: seq<Byte> -> Text, artifacts: seq<Artifact>, index: nat)
    requires index < |artifacts| <= 4 && forall i :: 0 <= i <= index ==> Fault(sha, artifacts, i) == None
    ensures var before, actual := Digests(sha, artifacts[..index]), sha(artifacts[index].bytes);
      && |before| == index && artifacts[index].bindsTo == before
      && before + [actual] == Digests(sha, artifacts[..index + 1])
      && Short(ArtifactFields(index, actual, before))
  {
    assert Fault(sha, artifacts, index) == None;
    hide Role, Short, ArtifactFields;
    DigestsKnown(sha, artifacts, index);
    FieldsShort(index, sha(artifacts[index].bytes), Digests(sha, artifacts[..index]));
  }

  /** `canonical_package_root`, for any notion of blank text and any fingerprint function. */
  method CanonicalPackageRoot(blank: Text -> bool, sha: seq<Byte> -> Text, runId: Text, subject: Text,
                              artifacts: seq<Artifact>)
    returns (r: RootResult)
    ensures r == Refused(InvalidShape) <==> !ShapeOk(blank, runId, subject, artifacts)
    ensures r == Refused(FieldTooLong) <==> ShapeOk(blank, runId, subject, artifacts) && !Short([runId, subject])
    ensures r.Refused? && r.error != InvalidShape && r.error != FieldTooLong ==>
      |artifacts| <= 4 && exists i :: 0 <= i < |artifacts| && Fault(sha, artifacts, i) == Some(r.error)
                                   && forall j :: 0 <= j < i ==> Fault(sha, artifacts, j) == None
    ensures r.Root? ==>
      && ShapeOk(blank, runId, subject, artifacts) && Short([runId, subject])
      && (forall i :: 0 <= i < |artifacts| ==> Fault(sha, artifacts, i) == None)
      && r.fingerprint == sha(Frame(RootFields(runId, subject, Digests(sha, artifacts))))
  {
    if !ShapeOk(blank, runId, subject, artifacts) {
      return Refused(InvalidShape);
    }
    var head := [Ascii(ROOT_SCHEMA), Ascii(PACKAGE_SCHEMA), runId, subject];
    HeadShort(runId, subject);
    assert RootFields(runId, subject, Digests(sha, artifacts)) == head + ChainFields(Digests(sha, artifacts));
    assert ChainFields([]) == [] && Digests(sha, artifacts[..0]) == [];
    forall i | 0 <= i < |artifacts| { FaultKinds(sha, artifacts, i); }
    hide Frame, Ascii, Short, ShapeOk, RootFields, ArtifactFields, ChainFields, Fault, Digests;
    var pushed := PushAll([], head);
    if pushed.None? {
      return Refused(FieldTooLong);
    }
    var material := pushed.value;
    var recomputed: seq<Text> := [];
    assert head + [] == head && [] + Frame(head) == Frame(head);
    for index := 0 to |artifacts|
      invariant recomputed == Digests(sha, artifacts[..index])
      invariant forall i :: 0 <= i < index ==> Fault(sha, artifacts, i) == None
      invariant material == Frame(head + ChainFields(recomputed))
    {
      var fault := CheckArtifact(sha, artifacts, index, recomputed);
      if fault.Some? {
        return Refused(fault.value);
      }
      ArtifactKnown(sha, artifacts, index);
      var actual := sha(artifacts[index].bytes);
      FrameStep(head, recomputed, actual);
      var next := PushAll(material, ArtifactFields(index, actual, recomputed));
      material := next.value;
      recomputed := recomputed + [actual];
    }
    assert artifacts[..|artifacts|] == artifacts;
    r := Root(sha(material));
  }

  lemma FaultKinds(sha: seq<Byte> -> Text, artifacts: seq<Artifact>, i: nat)
    requires i < |artifacts| <= 4
    ensures Fault(sha, artifacts, i) != Some(InvalidShape) && Fault(sha, artifacts, i) != Some(FieldTooLong)
  {
  }

  lemma HeadShort(runId: Text, subject: Text)
    ensures Short([Ascii(ROOT_SCHEMA), Ascii(PACKAGE_SCHEMA), runId, subject]) <==> Short([runId, subject])
  {
    var head, two := [Ascii(ROOT_SCHEMA), Ascii(PACKAGE_SCHEMA), runId, subject], [runId, subject];
    assert head[2] == runId && head[3] == subject && two[0] == runId && two[1] == subject;
    assert |Ascii(ROOT_SCHEMA)| == 31 && |Ascii(PACKAGE_SCHEMA)| == 36;
  }

  /** Digests that passed their checks are fingerprints. */
  lemma DigestsKnown(sha: seq<Byte> -> Text, artifacts: seq<Artifact>, index: nat)
    requires index < |artifacts| <= 4 && forall i :: 0 <= i < index ==> Fault(sha, artifacts, i) == None
    requires ValidSha256(artifacts[index].sha256) && sha(artifacts[index].bytes) == artifacts[index].sha256
    ensures Digests(sha, artifacts[..index + 1]) == Digests(sha, artifacts[..index]) + [sha(artifacts[index].bytes)]
    ensures |sha(artifacts[index].bytes)| == 71 && forall d :: d in Digests(sha, artifacts[..index]) ==> |d| == 71
  {
    forall d | d in Digests(sha, artifacts[..index]) ensures |d| == 71 {
      var i :| 0 <= i < index && Digests(sha, artifacts[..index])[i] == d;
      assert Fault(sha, artifacts, i) == None;
    }
  }

  lemma FieldsShort(index: nat, digest: Text, earlier: seq<Text>)
    requires index < 4 && |earlier| < 10 && |digest| == 71 && forall d :: d in earlier ==> |d| == 71
    ensures Short(ArtifactFields(index, digest, earlier))
  {
  }

  lemma ChainStep(digests: seq<Text>, digest: Text)
    requires |digests| < 4
    ensures ChainFields(digests + [digest]) == ChainFields(digests) + ArtifactFields(|digests|, digest, digests)
  {
    assert (digests + [digest])[..|digests|] == digests;
  }

  lemma {:induction false} FrameConcat(xs: seq<Text>, ys: seq<Text>)
    ensures Frame(xs + ys) == Frame(xs) + Frame(ys)
  {
    hide Framed;
    if |xs| == 0 {
      assert xs + ys == ys;
    } else {
      FrameConcat(xs[1..], ys);
      assert (xs + ys)[1..] == xs[1..] + ys;
    }
  }

  /** A package that `canonical_package_root` accepts. */
  ghost predicate Accepted(blank: Text -> bool, sha: seq<Byte> -> Text, runId: Text, subject: Text,
                           artifacts: seq<Artifact>) {
    && ShapeOk(blank, runId, subject, artifacts) && Short([runId, subject])
    && forall i :: 0 <= i < |artifacts| ==> Fault(sha, artifacts, i) == None
  }

  /** Unless the hash collides on them, accepted packages with one root are one package, byte for byte. */
  lemma RootBindsPackage(blank: Text -> bool, sha: seq<Byte> -> Text, run1: Text, subject1: Text, a1: seq<Artifact>,
                         run2: Text, subject2: Text, a2: seq<Artifact>)
    requires Accepted(blank, sha, run1, subject1, a1) && Accepted(blank, sha, run2, subject2, a2)
    requires var m1 := Frame(RootFields(run1, subject1, Digests(sha, a1)));
      var m2 := Frame(RootFields(run2, subject2, Digests(sha, a2)));
      sha(m1) == sha(m2) && CollisionFree(sha, {m1, m2} + (set a | a in a1 + a2 :: a.bytes))
    ensures run1 == run2 && subject1 == subject2 && a1 == a2
  {
    var d1, d2 := Digests(sha, a1), Digests(sha, a2);
    FieldsOfAccepted(blank, sha, run1, subject1, a1);
    FieldsOfAccepted(blank, sha, run2, subject2, a2);
    hide Frame, Short, RootFields, ShapeOk;
    RootMaterialInjective(run1, subject1, d1, run2, subject2, d2);
    forall i | 0 <= i < |a1| ensures a1[i] == a2[i] {
      assert d1[i] == d2[i] && Digests(sha, a1[..i]) == d1[..i] && Digests(sha, a2[..i]) == d2[..i];
      assert Fault(sha, a1, i) == None && Fault(sha, a2, i) == None;
      assert a1[i] in a1 + a2 && a2[i] in a1 + a2;
    }
  }

  lemma FieldsOfAccepted(blank: Text -> bool, sha: seq<Byte> -> Text, runId: Text, subject: Text,
                         artifacts: seq<Artifact>)
    requires Accepted(blank, sha, runId, subject, artifacts)
    ensures |artifacts| <= 4 && Short(RootFields(runId, subject, Digests(sha, artifacts)))
  {
    var n := |artifacts| - 1;
    assert Fault(sha, artifacts, n) == None;
    DigestsKnown(sha, artifacts, n);
    assert artifacts[..n + 1] == artifacts;
    HeadShort(runId, subject);
    hide Ascii, Role, Fault, ValidSha256;
    ChainShort(Digests(sha, artifacts));
  }

  // -------------------------------------------------------------------- hexadecimal

  function HexOf(nibble: nat): Byte
    requires nibble < 16
  {
    if nibble < 10 then 48 + nibble else 87 + nibble
  }

  function NibbleOf(b: Byte): nat
    requires HexDigit(b)
  {
    if b <= 57 then b - 48 else if b <= 70 then b - 55 else b - 87
  }

  function HexEncode(bytes: seq<Byte>): Text {
    if |bytes| == 0 then [] else [HexOf(bytes[0] / 16), HexOf(bytes[0] % 16)] + HexEncode(bytes[1..])
  }

  /** The pairs of hexadecimal digits of `value`, as bytes. */
  function Pairs(value: Text): seq<Byte>
    requires |value| % 2 == 0 && forall i :: 0 <= i < |value| ==> HexDigit(value[i])
  {
    if |value| == 0 then [] else [16 * NibbleOf(value[0]) + NibbleOf(value[1])] + Pairs(value[2..])
  }

  /** `hex_decode` into `n` bytes. */
  method HexDecode(value: Text, n: nat) returns (r: Option<seq<Byte>>)
    ensures r ==
      if |value| == 2 * n && forall i :: 0 <= i < |value| ==> HexDigit(value[i]) then Some(Pairs(value)) else None
  {
    if |value| != 2 * n || exists i :: 0 <= i < |value| && !HexDigit(value[i]) {
      return None;
    }
    hide NibbleOf, HexDigit;
    var output: seq<Byte> := [];
    assert value[0..] == value && [] + Pairs(value) == Pairs(value);
    for i := 0 to n
      invariant output + Pairs(value[2 * i..]) == Pairs(value)
    {
      ghost var rest := value[2 * (i + 1)..];
      var b := 16 * NibbleOf(value[2 * i]) + NibbleOf(value[2 * i + 1]);
      assert value[2 * i..][2..] == rest && Pairs(value[2 * i..]) == [b] + Pairs(rest);
      assert output + ([b] + Pairs(rest)) == (output + [b]) + Pairs(rest);
      output := output + [b];
    }
    assert output + [] == output;
    r := Some(output);
  }

  function Lower(value: Text): Text {
    seq(|value|, i requires 0 <= i < |value| => if 65 <= value[i] <= 90 then value[i] + 32 else value[i])
  }

  /** What is encoded decodes to itself. */
  lemma {:induction false} DecodesHex(bytes: seq<Byte>)
    ensures |HexEncode(bytes)| == 2 * |bytes|
    ensures forall i :: 0 <= i < |HexEncode(bytes)| ==> HexDigit(HexEncode(bytes)[i])
    ensures Pairs(HexEncode(bytes)) == bytes
  {
    if |bytes| > 0 {
      DecodesHex(bytes[1..]);
      var e := HexEncode(bytes);
      assert e[2..] == HexEncode(bytes[1..]);
      assert bytes == [bytes[0]] + bytes[1..];
    }
  }

  /** What is decoded encodes to the same digits, in lower case. */
  lemma {:induction false} EncodesHex(value: Text)
    requires |value| % 2 == 0 && forall i :: 0 <= i < |value| ==> HexDigit(value[i])
    ensures HexEncode(Pairs(value)) == Lower(value)
  {
    if |value| > 0 {
      EncodesHex(value[2..]);
      HexPair(value[0], value[1]);
      var b := 16 * NibbleOf(value[0]) + NibbleOf(value[1]);
      hide HexOf, NibbleOf;
      assert Pairs(value) == [b] + Pairs(value[2..]) && ([b] + Pairs(value[2..]))[1..] == Pairs(value[2..]);
      assert Lower(value) == Lower([value[0], value[1]]) + Lower(value[2..]);
    }
  }

  lemma HexPair(high: Byte, low: Byte)
    requires HexDigit(high) && HexDigit(low)
    ensures var b := 16 * NibbleOf(high) + NibbleOf(low);
      Lower([high, low]) == [HexOf(b / 16), HexOf(b % 16)]
  {
    var l := Lower([high, low]);
    assert |l| == 2 && l == [l[0], l[1]];
  }
}
