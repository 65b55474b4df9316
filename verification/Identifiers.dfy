/**
 The texts that the store digests into ids and fingerprints: which of the hand-built ones are
 canonical, and that a fingerprint text determines everything it was built from.
 */
module Identifiers {
  import opened Order
  import opened CanonicalJson

  function SourceHashFields(subject: string, pred: string, obj: string, source: string): seq<(string, string)> {
    [("object", obj), ("predicate", pred), ("source", source), ("subject", subject)]
  }

  function ProposalIdFields(workspace: string, scope: string, subject: string, pred: string, obj: string, sourceHash: string): seq<(string, string)> {
    [("object", obj), ("predicate", pred), ("scope", scope), ("sourceHash", sourceHash), ("subject", subject), ("workspaceId", workspace)]
  }

  function EpisodeIdFields(workspace: string, source: string, sourceHash: string, text: string): seq<(string, string)> {
    [("source", source), ("sourceHash", sourceHash), ("text", text), ("workspaceId", workspace)]
  }

  function FactFingerprintFields(scope: string, subject: string, pred: string, obj: string, source: string): seq<(string, string)> {
    [("scope", scope), ("subject", subject), ("predicate", pred), ("object", obj), ("source", source)]
  }

  lemma {:induction false} PrefixLess(a: string, b: string)
    requires b != ""
    ensures Less(a, a + b)
    decreases |a|
  {
    if a == "" {
      assert a + b == b;
    } else {
      PrefixLess(a[1..], b);
      assert (a + b)[1..] == a[1..] + b;
    }
  }

  /** Adjacent keys in order suffice. */
  lemma {:induction false} AdjacentIncreasing(keys: seq<string>)
    requires forall i :: 0 <= i < |keys| - 1 ==> Less(keys[i], keys[i + 1])
    ensures Increasing(keys)
  {
    hide Less;
    forall i, j | 0 <= i < j < |keys| ensures Less(keys[i], keys[j]) {
      AdjacentLess(keys, i, j);
    }
  }

  lemma {:induction false} AdjacentLess(keys: seq<string>, i: nat, j: nat)
    requires forall k :: 0 <= k < |keys| - 1 ==> Less(keys[k], keys[k + 1])
    requires i < j < |keys|
    ensures Less(keys[i], keys[j])
    decreases j - i
  {
    hide Less;
    assert Less(keys[j - 1], keys[j - 1 + 1]);
    if i < j - 1 {
      AdjacentLess(keys, i, j - 1);
      LessTransitive(keys[i], keys[j - 1], keys[j]);
    }
  }

  lemma {:induction false} FourFields(f: seq<(string, string)>)
    requires |f| == 4
    ensures StringObject(f) == Object(map[][f[0].0 := String(f[0].1)][f[1].0 := String(f[1].1)][f[2].0 := String(f[2].1)][f[3].0 := String(f[3].1)])
  {
    hide StringObject;
    EntriesSnoc(f);
    EntriesSnoc(f[..3]);
    EntriesSnoc(f[..2]);
    EntriesSnoc(f[..1]);
    EntriesSnoc([]);
    assert f[..3][..2] == f[..2] && f[..2][..1] == f[..1] && f[..1][..0] == [];
  }

  lemma {:induction false} FiveFields(f: seq<(string, string)>)
    requires |f| == 5
    ensures StringObject(f) ==
            Object(map[][f[0].0 := String(f[0].1)][f[1].0 := String(f[1].1)][f[2].0 := String(f[2].1)][f[3].0 := String(f[3].1)][f[4].0 := String(f[4].1)])
  {
    hide StringObject;
    FourFields(f[..4]);
    EntriesSnoc(f);
  }

  lemma {:induction false} SixFields(f: seq<(string, string)>)
    requires |f| == 6
    ensures StringObject(f) ==
            Object(map[][f[0].0 := String(f[0].1)][f[1].0 := String(f[1].1)][f[2].0 := String(f[2].1)]
                        [f[3].0 := String(f[3].1)][f[4].0 := String(f[4].1)][f[5].0 := String(f[5].1)])
  {
    hide StringObject;
    FiveFields(f[..5]);
    EntriesSnoc(f);
  }

  lemma {:induction false} EntriesSnoc(f: seq<(string, string)>)
    ensures f != [] ==> var n := |f| - 1; StringObject(f) == Object(StringObject(f[..n]).fields[f[n].0 := String(f[n].1)])
    ensures f == [] ==> StringObject(f) == Object(map[])
  {
    if f != [] {
      var n := |f| - 1;
      assert StringEntries(f)[..n] == StringEntries(f[..n]);
    }
  }

  lemma {:induction false} SourceHashIsCanonical(subject: string, pred: string, obj: string, source: string)
    ensures EncodeStringFields(SourceHashFields(subject, pred, obj, source)) ==
            Encode(Object(map["object" := String(obj), "predicate" := String(pred), "source" := String(source), "subject" := String(subject)]))
  {
    hide EncodeStringFields, Encode, FromEntries, StringObject;
    FourFields(SourceHashFields(subject, pred, obj, source));
    var fields := SourceHashFields(subject, pred, obj, source);
    AdjacentIncreasing(KeysOf(fields));
    HandBuiltIsCanonical(fields);
  }

  lemma {:induction false} ProposalIdIsCanonical(workspace: string, scope: string, subject: string, pred: string, obj: string, sourceHash: string)
    ensures EncodeStringFields(ProposalIdFields(workspace, scope, subject, pred, obj, sourceHash)) ==
            Encode(Object(map["object" := String(obj), "predicate" := String(pred), "scope" := String(scope),
                              "sourceHash" := String(sourceHash), "subject" := String(subject), "workspaceId" := String(workspace)]))
  {
    hide EncodeStringFields, Encode, FromEntries, StringObject;
    SixFields(ProposalIdFields(workspace, scope, subject, pred, obj, sourceHash));
    var fields := ProposalIdFields(workspace, scope, subject, pred, obj, sourceHash);
    AdjacentIncreasing(KeysOf(fields));
    HandBuiltIsCanonical(fields);
  }

  lemma {:induction false} EpisodeIdIsCanonical(workspace: string, source: string, sourceHash: string, text: string)
    ensures EncodeStringFields(EpisodeIdFields(workspace, source, sourceHash, text)) ==
            Encode(Object(map["source" := String(source), "sourceHash" := String(sourceHash), "text" := String(text), "workspaceId" := String(workspace)]))
  {
    hide EncodeStringFields, Encode, FromEntries, StringObject;
    FourFields(EpisodeIdFields(workspace, source, sourceHash, text));
    var fields := EpisodeIdFields(workspace, source, sourceHash, text);
    PrefixLess("source", "Hash");
    assert "source" + "Hash" == "sourceHash";
    AdjacentIncreasing(KeysOf(fields));
    HandBuiltIsCanonical(fields);
  }

  /** `factFingerprint` lists its fields out of order: its text is never the canonical one. */
  lemma {:induction false} FactFingerprintIsNeverCanonical(scope: string, subject: string, pred: string, obj: string, source: string)
    ensures EncodeStringFields(FactFingerprintFields(scope, subject, pred, obj, source)) !=
            Encode(Object(map["scope" := String(scope), "subject" := String(subject), "predicate" := String(pred), "object" := String(obj), "source" := String(source)]))
  {
    hide EncodeStringFields, Encode, FromEntries, StringObject;
    FiveFields(FactFingerprintFields(scope, subject, pred, obj, source));
    var fields := FactFingerprintFields(scope, subject, pred, obj, source);
    HandBuiltIsCanonical(fields);
    assert KeysOf(fields)[1] == "subject" && KeysOf(fields)[2] == "predicate";
    assert !Less("subject", "predicate");
  }

  // ---------------------------------------------------------------- proposal fingerprints

  /** A field whose key is written without escaping. */
  function Named(key: string, text: string): string {
    "\"" + key + "\":" + text
  }

  /** The text built by `proposal_fingerprint_from_parts`. */
  function FingerprintText(payload: Value, sourceHash: string, sourceLocator: string, workspace: string): string {
    "{" + Named("payload", Encode(payload)) + "," + Named("sourceHash", Quote(sourceHash))
      + "," + Named("sourceLocator", Quote(sourceLocator)) + "," + Named("workspaceId", Quote(workspace)) + "}"
  }

  function FingerprintEntries(payload: Value, sourceHash: string, sourceLocator: string, workspace: string): seq<(string, Value)> {
    [("payload", payload), ("sourceHash", String(sourceHash)), ("sourceLocator", String(sourceLocator)), ("workspaceId", String(workspace))]
  }

  predicate Plain(s: string) {
    forall i :: 0 <= i < |s| ==> s[i] != '\"' && s[i] != '\\' && !IsControl(s[i])
  }

  lemma {:induction false} PlainField(key: string, text: string)
    requires Plain(key)
    ensures Field(key, text) == Named(key, text)
  {
    PlainEscape(key);
    assert "\"" + key + "\"" + ":" + text == "\"" + key + "\":" + text;
  }

  lemma {:induction false} PlainEscape(s: string)
    requires Plain(s)
    ensures EscapeAll(s) == s
  {
    if s != "" {
      PlainEscape(s[1..]);
      assert EscapeChar(s[0]) == [s[0]];
    }
  }

  lemma {:induction false} FingerprintTextIsEntries(payload: Value, sourceHash: string, sourceLocator: string, workspace: string)
    ensures FingerprintText(payload, sourceHash, sourceLocator, workspace) ==
            "{" + Join(EntryTexts(FingerprintEntries(payload, sourceHash, sourceLocator, workspace))) + "}"
  {
    hide Encode, Quote, Field, Named, Join;
    var entries := FingerprintEntries(payload, sourceHash, sourceLocator, workspace);
    var texts := EntryTexts(entries);
    PlainField("payload", Encode(payload));
    PlainField("sourceHash", Quote(sourceHash));
    PlainField("sourceLocator", Quote(sourceLocator));
    PlainField("workspaceId", Quote(workspace));
    StringEncodes(sourceHash);
    StringEncodes(sourceLocator);
    StringEncodes(workspace);
    JoinFour(texts);
    var a, b, c, d := texts[0], texts[1], texts[2], texts[3];
    assert "{" + a + "," + b + "," + c + "," + d + "}" == "{" + (a + "," + b + "," + c + "," + d) + "}";
  }

  lemma {:induction false} StringEncodes(s: string)
    ensures Encode(String(s)) == Quote(s)
  {
  }

  lemma {:induction false} JoinFour(t: seq<string>)
    requires |t| == 4
    ensures Join(t) == t[0] + "," + t[1] + "," + t[2] + "," + t[3]
  {
    assert Join(t[3..]) == t[3];
    assert t[2..][1..] == t[3..] && t[1..][1..] == t[2..];
    assert Join(t[2..]) == t[2] + "," + t[3];
    assert Join(t[1..]) == t[1] + "," + Join(t[2..]);
  }

  lemma {:induction false} FingerprintKeysIncrease(payload: Value, sourceHash: string, sourceLocator: string, workspace: string)
    ensures Increasing(KeysOf(FingerprintEntries(payload, sourceHash, sourceLocator, workspace)))
  {
    hide Less;
    var keys := KeysOf(FingerprintEntries(payload, sourceHash, sourceLocator, workspace));
    FingerprintKeyOrder();
    AdjacentIncreasing(keys);
  }

  lemma {:induction false} FingerprintKeyOrder()
    ensures Less("payload", "sourceHash") && Less("sourceHash", "sourceLocator") && Less("sourceLocator", "workspaceId")
  {
    SharedPrefixLess("source", "Hash", "Locator");
    assert "source" + "Hash" == "sourceHash" && "source" + "Locator" == "sourceLocator";
  }

  lemma {:induction false} SharedPrefixLess(p: string, a: string, b: string)
    requires Less(a, b)
    ensures Less(p + a, p + b)
    decreases |p|
  {
    if p == "" {
      assert p + a == a && p + b == b;
    } else {
      SharedPrefixLess(p[1..], a, b);
      assert (p + a)[1..] == p[1..] + a && (p + b)[1..] == p[1..] + b;
    }
  }

  lemma {:induction false} FingerprintObject(payload: Value, sourceHash: string, sourceLocator: string, workspace: string)
    ensures FromEntries(FingerprintEntries(payload, sourceHash, sourceLocator, workspace)) ==
            map["payload" := payload, "sourceHash" := String(sourceHash), "sourceLocator" := String(sourceLocator), "workspaceId" := String(workspace)]
  {
    var e := FingerprintEntries(payload, sourceHash, sourceLocator, workspace);
    assert e[..3][..2] == e[..2] && e[..2][..1] == e[..1] && e[..1][..0] == [];
    assert FromEntries(e[..1]) == map[e[0].0 := e[0].1];
    assert FromEntries(e[..2]) == FromEntries(e[..1])[e[1].0 := e[1].1];
    assert FromEntries(e[..3]) == FromEntries(e[..2])[e[2].0 := e[2].1];
  }

  /** The fingerprint text is the canonical text of the object it stands for. */
  lemma {:induction false} FingerprintIsCanonical(payload: Value, sourceHash: string, sourceLocator: string, workspace: string)
    ensures FingerprintText(payload, sourceHash, sourceLocator, workspace) ==
            Encode(Object(map["payload" := payload, "sourceHash" := String(sourceHash), "sourceLocator" := String(sourceLocator), "workspaceId" := String(workspace)]))
  {
    FingerprintObject(payload, sourceHash, sourceLocator, workspace);
    hide Encode, FingerprintText, Join, FromEntries, FingerprintEntries;
    var entries := FingerprintEntries(payload, sourceHash, sourceLocator, workspace);
    FingerprintTextIsEntries(payload, sourceHash, sourceLocator, workspace);
    FingerprintKeysIncrease(payload, sourceHash, sourceLocator, workspace);
    IncreasingEntries(entries);
    EncodeObject(FromEntries(entries));
  }

  /** Two proposals share a fingerprint text exactly when payload, source and workspace all agree. */
  lemma {:induction false} FingerprintIdentifies(p: Value, h: string, l: string, w: string, p': Value, h': string, l': string, w': string)
    ensures FingerprintText(p, h, l, w) == FingerprintText(p', h', l', w') <==> p == p' && h == h' && l == l' && w == w'
  {
    hide FingerprintText, Join;
    FingerprintTextIsEntries(p, h, l, w);
    FingerprintTextIsEntries(p', h', l', w');
    var a, b := FingerprintEntries(p, h, l, w), FingerprintEntries(p', h', l', w');
    if FingerprintText(p, h, l, w) == FingerprintText(p', h', l', w') {
      Unbrace(Join(EntryTexts(a)), Join(EntryTexts(b)));
      EntryTextInjective(a, b);
      assert a[0] == b[0] && a[1] == b[1] && a[2] == b[2] && a[3] == b[3];
    }
  }
}
