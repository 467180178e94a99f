/**
 The materials field by field: which strings stand where, what makes an artifact invalid,
 and what the hexadecimal digits are worth.
 */
module Fields {
  import opened Base
  import opened Bytes
  import opened Layout
  import opened Materials

  /** A field is its length in four bytes, the most significant first, and then itself. */
  lemma FieldLayout(field: Text, rest: seq<Text>)
    ensures var m := Frame([field] + rest);
      && |m| >= 4 + |field|
      && Writes(m[..4], |field|) && m[4..4 + |field|] == field && m[4 + |field|..] == Frame(rest)
  {
    BigEndianWrites(|field|, 4);
    hide BigEndian, Writes;
    assert ([field] + rest)[1..] == rest;
    var m := Frame([field] + rest);
    assert m[..4] == BigEndian(|field|, 4);
  }

  /** The fields of a base package: the schemas, the run, the subject, and three artifacts that bind those before. */
  lemma BaseFields(runId: Text, subject: Text, w: Text, e: Text, k: Text)
    ensures RootFields(runId, subject, [w, e, k]) ==
      [Ascii("causal-assurance-signed-root/v2"), Ascii("causal-assurance-portable-package/v2"), runId, subject]
      + [Ascii("0"), Ascii("WITNESS"), w, Ascii("0")]
      + [Ascii("1"), Ascii("EVIDENCE"), e, Ascii("1"), w]
      + [Ascii("2"), Ascii("WORKBENCH"), k, Ascii("2"), w, e]
  {
    Digits();
    ChainStep([], w);
    ChainStep([w], e);
    ChainStep([w, e], k);
    assert [] + [w] == [w] && [w] + [e] == [w, e] && [w, e] + [k] == [w, e, k];
    hide Ascii, OneDigit;
  }

  /** A reviewed package appends its attestation. */
  lemma AttestedFields(runId: Text, subject: Text, w: Text, e: Text, k: Text, a: Text)
    ensures RootFields(runId, subject, [w, e, k, a]) ==
      RootFields(runId, subject, [w, e, k]) + [Ascii("3"), Ascii("ATTESTATION"), a, Ascii("3"), w, e, k]
  {
    Digits();
    ChainStep([w, e, k], a);
    assert [w, e, k] + [a] == [w, e, k, a];
    hide Ascii, OneDigit, ChainFields;
  }

  lemma Digits()
    ensures OneDigit(0) == Ascii("0") && OneDigit(1) == Ascii("1") && OneDigit(2) == Ascii("2")
    ensures OneDigit(3) == Ascii("3")
  {
  }

  function Word(decision: ReviewDecision): string {
    match decision
    case Confirmed => "CONFIRMED"
    case Rejected => "REJECTED"
    case Abstained => "ABSTAINED"
  }

  /** What a review signs: schema, certificate, reviewer, decision, scope. */
  lemma ReviewFields(r: Review)
    ensures Frame(AttestationFields(r)) ==
      Frame([Ascii("causal-assurance-attestation/v2"), r.certificateDigest, r.reviewerId]
            + [Ascii(Word(r.decision))]
            + [r.scopeDigest])
  {
    hide Frame, Ascii;
    assert AttestationFields(r) ==
      [Ascii("causal-assurance-attestation/v2"), r.certificateDigest, r.reviewerId]
      + [Ascii(Word(r.decision))]
      + [r.scopeDigest];
  }

  lemma SignedFields(digest: Text, keyId: Text)
    ensures Frame(SignatureFields(digest, keyId)) ==
      Frame([Ascii("causal-assurance-attestation-signature/v1"), digest, keyId])
  {
    hide Frame, Ascii;
  }

  /** What an artifact is refused for: its role or digest form, its digest, its bindings, in this order. */
  lemma FaultIff(sha: seq<Byte> -> Text, artifacts: seq<Artifact>, i: nat)
    requires i < |artifacts| <= 4
    ensures var a := artifacts[i];
      var role := Ascii(["WITNESS", "EVIDENCE", "WORKBENCH", "ATTESTATION"][i]);
      var wellFormed := a.role == role && ValidSha256(a.sha256);
      var digested := sha(a.bytes) == a.sha256;
      var bound := |a.bindsTo| == i && forall j :: 0 <= j < i ==> a.bindsTo[j] == sha(artifacts[j].bytes);
      && (Fault(sha, artifacts, i) == Some(InvalidArtifact) <==> !wellFormed)
      && (Fault(sha, artifacts, i) == Some(DigestMismatch) <==> wellFormed && !digested)
      && (Fault(sha, artifacts, i) == Some(BindingMismatch) <==> wellFormed && digested && !bound)
      && (Fault(sha, artifacts, i) == None <==> wellFormed && digested && bound)
  {
    var a, before := artifacts[i], Digests(sha, artifacts[..i]);
    assert |before| == i && forall j :: 0 <= j < i ==> before[j] == sha(artifacts[j].bytes);
    hide Ascii, ValidSha256, Digests;
  }

  /** A package has a run, a subject, and three artifacts or four. */
  lemma ShapeIff(blank: Text -> bool, runId: Text, subject: Text, artifacts: seq<Artifact>)
    ensures ShapeOk(blank, runId, subject, artifacts) <==>
      !(blank(runId) || blank(subject) || |artifacts| < 3 || |artifacts| > 4)
  {
  }

  lemma Decimals(i: nat)
    requires i < 10
    ensures Ascii("0123456789")[i] == 48 + i
  {
  }

  lemma Letters(i: nat)
    requires i < 6
    ensures Ascii("abcdef")[i] == 97 + i && Ascii("ABCDEF")[i] == 65 + i
  {
  }

  predicate AnyDigit(b: Byte) {
    b in Ascii("0123456789") || b in Ascii("abcdef") || b in Ascii("ABCDEF")
  }

  lemma DigitIff(b: Byte)
    ensures HexDigit(b) <==> AnyDigit(b)
  {
    var decimals, lower, upper := Ascii("0123456789"), Ascii("abcdef"), Ascii("ABCDEF");
    assert |decimals| == 10 && |lower| == 6 && |upper| == 6;
    hide Ascii;
    forall i | 0 <= i < 10 ensures decimals[i] == 48 + i {
      Decimals(i);
    }
    forall i | 0 <= i < 6 ensures lower[i] == 97 + i && upper[i] == 65 + i {
      Letters(i);
    }
    if 48 <= b <= 57 {
      assert decimals[b - 48] == b;
    } else if 97 <= b <= 102 {
      assert lower[b - 97] == b;
    } else if 65 <= b <= 70 {
      assert upper[b - 65] == b;
    }
  }

  /** A fingerprint is the prefix and 64 hexadecimal digits, in either case. */
  lemma FingerprintIff(value: Text)
    ensures ValidSha256(value) <==>
      && |value| == 7 + 64 && value[..7] == Ascii("sha256:")
      && forall i :: 7 <= i < 71 ==> AnyDigit(value[i])
  {
    hide Ascii, HexDigit, AnyDigit;
    if |value| == 71 {
      forall i | 7 <= i < 71 ensures HexDigit(value[i]) <==> AnyDigit(value[i]) {
        DigitIff(value[i]);
      }
    }
  }

  /** The digits are worth 0 to 15 in the order of the alphabet, in either case, and are written in lower case. */
  lemma DigitValue(n: nat)
    ensures n < 10 ==>
      var b := Ascii("0123456789")[n]; HexOf(n) == b && HexDigit(b) && NibbleOf(b) == n
    ensures n < 6 ==>
      var (lower, upper) := (Ascii("abcdef")[n], Ascii("ABCDEF")[n]);
      && HexOf(10 + n) == lower && HexDigit(lower) && NibbleOf(lower) == 10 + n
      && HexDigit(upper) && NibbleOf(upper) == 10 + n
  {
    assert |Ascii("0123456789")| == 10 && |Ascii("abcdef")| == 6 && |Ascii("ABCDEF")| == 6;
    hide Ascii;
    if n < 10 {
      Decimals(n);
    }
    if n < 6 {
      Letters(n);
    }
  }

  /** The first digit of a pair is the high half of the byte. */
  lemma PairValue(high: Byte, low: Byte, rest: Text)
    requires HexDigit(high) && HexDigit(low)
    requires |rest| % 2 == 0 && forall i :: 0 <= i < |rest| ==> HexDigit(rest[i])
    ensures var value := [high, low] + rest;
      && (forall i :: 0 <= i < |value| ==> HexDigit(value[i]))
      && Pairs(value) == [16 * NibbleOf(high) + NibbleOf(low)] + Pairs(rest)
  {
    assert ([high, low] + rest)[2..] == rest;
    hide NibbleOf;
  }
}
