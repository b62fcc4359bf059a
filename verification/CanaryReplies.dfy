/** What the canary takes the replies for, told from their fields. */
module CanaryReplies {
  import opened Prelude
  import opened Manifest
  import opened Canary

  ghost predicate IsReady(payload: Value) { payload.Obj? && Says(payload.fields, "status", Str("ready")) }

  ghost predicate IsBuild(payload: Value, sha: string) { payload.Obj? && Says(payload.fields, "gitSha", Str(sha)) }

  // ---------------------------------------------------------------------------
  // The list of flags

  ghost predicate IsFlag(item: Value) { item.Obj? && Says(item.fields, "key", Str("external_proof_anchoring_enabled")) }

  /** Item k is the first that has the flag's key. */
  ghost predicate FirstFlag(items: seq<Value>, k: nat) {
    k < |items| && IsFlag(items[k]) && forall j: nat | j < k :: !IsFlag(items[j])
  }

  /** A list whose first entry for the flag has it like this. */
  ghost predicate TellsFlag(payload: Value, enabled: bool) {
    payload.Arr? && exists k: nat :: FirstFlag(payload.items, k) && Says(payload.items[k].fields, "enabled", Bool(enabled))
  }

  lemma {:induction false} FlagOfItems(items: seq<Value>, enabled: bool)
    ensures FlagOf(items) == Some(enabled) <==> exists k: nat :: FirstFlag(items, k) && Says(items[k].fields, "enabled", Bool(enabled))
  {
    if items != [] {
      if IsFlag(items[0]) {
        assert FirstFlag(items, 0);
        assert forall k: nat :: FirstFlag(items, k) ==> k == 0;
      } else {
        var rest := items[1..];
        FlagOfItems(rest, enabled);
        forall k: nat ensures FirstFlag(rest, k) <==> FirstFlag(items, k + 1) { FirstFlagBehind(items, k); }
        if k: nat :| FirstFlag(rest, k) && Says(rest[k].fields, "enabled", Bool(enabled)) {
          assert FirstFlag(items, k + 1) && items[k + 1] == rest[k];
        }
        if k: nat :| FirstFlag(items, k) && Says(items[k].fields, "enabled", Bool(enabled)) {
          assert k > 0;
          assert FirstFlag(rest, k - 1) && rest[k - 1] == items[k];
        }
      }
    }
  }

  lemma FirstFlagBehind(items: seq<Value>, k: nat)
    requires items != [] && !IsFlag(items[0])
    ensures FirstFlag(items[1..], k) <==> FirstFlag(items, k + 1)
  {
    var rest := items[1..];
    assert forall j: nat | j < |rest| :: rest[j] == items[j + 1];
    if FirstFlag(rest, k) {
      forall j: nat | j < k + 1 ensures !IsFlag(items[j]) { if j > 0 { assert !IsFlag(rest[j - 1]); } }
    }
    if FirstFlag(items, k + 1) {
      forall j: nat | j < k ensures !IsFlag(rest[j]) { assert !IsFlag(items[j + 1]); }
    }
  }

  /** The canary reads a flag off a reply exactly if this holds. */
  lemma FlagInIff(payload: Value, enabled: bool)
    ensures FlagIn(payload) == Some(enabled) <==> TellsFlag(payload, enabled)
  {
    if payload.Arr? { FlagOfItems(payload.items, enabled); }
  }

  /** In every list that the server answers with, an entry for the flag that tells whether it
      is enabled tells the truth; what other entries say does not matter. */
  ghost predicate TruthfulServer(fate: Outside) {
    forall n: nat, enabled: bool ::
      var f := fate(n, ReadFlag, enabled);
      f.Reply? && f.payload.Arr? ==>
        forall item, b | item in f.payload.items && IsFlag(item) && Says(item.fields, "enabled", Bool(b)) :: b == enabled
  }

  /** That is all that is asked of the server: the canary then never misreads the flag. */
  lemma TruthfulIsHonest(sha: string, safeUrl: string -> bool, fate: Outside)
    requires TruthfulServer(fate)
    ensures Honest(CanaryChecks(sha, safeUrl), fate)
  {
    forall n: nat, enabled: bool | fate(n, ReadFlag, enabled).Reply?
      ensures FlagIn(fate(n, ReadFlag, enabled).payload) in {None, Some(enabled)}
    {
      var payload := fate(n, ReadFlag, enabled).payload;
      if FlagIn(payload).Some? {
        var b := FlagIn(payload).value;
        FlagInIff(payload, b);
        var k: nat :| FirstFlag(payload.items, k) && Says(payload.items[k].fields, "enabled", Bool(b));
        assert payload.items[k] in payload.items;
      }
    }
  }

  // ---------------------------------------------------------------------------
  // Batches

  /** A batch that was created, with its id. */
  ghost predicate IsCreated(payload: Value, id: string) {
    payload.Obj? && exists batch :: Says(payload.fields, "batch", Obj(batch)) && Says(batch, "id", Str(id))
  }

  lemma CreatedIff(payload: Value, id: string)
    ensures BatchIn(payload) == Some(id) <==> IsCreated(payload, id)
  {
    if BatchIn(payload) == Some(id) {
      var batch := payload.fields["batch"].fields;
      assert Says(payload.fields, "batch", Obj(batch));
    }
  }

  ghost predicate HasStatus(payload: Value, status: string) { payload.Obj? && Says(payload.fields, "status", Str(status)) }

  lemma StatusIff(payload: Value)
    ensures StatusOf(payload) == Succeeded <==> HasStatus(payload, "confirmed")
    ensures StatusOf(payload) == Failed <==> HasStatus(payload, "failed")
    ensures StatusOf(payload) == Dead <==> HasStatus(payload, "dead")
    ensures StatusOf(payload) == InProgress <==> HasStatus(payload, "processing")
  {
    assert "confirmed"[0] == 'c' && "failed"[0] == 'f' && "dead"[0] == 'd' && "processing"[0] == 'p';
  }

  /** The value of a field, with nothing for a missing one and for a null. */
  function FieldOf(payload: Value, key: string): Value {
    if payload.Obj? && key in payload.fields then payload.fields[key] else Null
  }

  /** A batch moves exactly if one of five fields does. */
  lemma ObservedSameIff(p: Value, q: Value)
    ensures Observed(p) == Observed(q) <==>
              && FieldOf(p, "status") == FieldOf(q, "status") && FieldOf(p, "attempts") == FieldOf(q, "attempts")
              && FieldOf(p, "max_attempts") == FieldOf(q, "max_attempts")
              && FieldOf(p, "last_error_kind") == FieldOf(q, "last_error_kind")
              && FieldOf(p, "available_at") == FieldOf(q, "available_at")
  {
    var a, b := Observed(p), Observed(q);
    assert a == b <==> a[0] == b[0] && a[1] == b[1] && a[2] == b[2] && a[3] == b[3] && a[4] == b[4];
  }

  predicate LowerHex(c: char) { c in "0123456789abcdef" }

  /** The coordinates of a Rekor entry, signed by a key with a SHA-256 fingerprint. */
  ghost predicate HasCoordinates(safeUrl: string -> bool, payload: Value, url: string, id: string) {
    && payload.Obj? && Says(payload.fields, "anchor_kind", Str("sigstore.rekor.v1"))
    && Says(payload.fields, "anchor_url", Str(url)) && safeUrl(url)
    && Says(payload.fields, "anchor_entry_id", Str(id)) && 64 <= |id| <= 128 && (forall c | c in id :: LowerHex(c))
    && exists rest :: Says(payload.fields, "signer_fingerprint", Str("sha256:" + rest))
  }

  lemma LowerHexIs(c: char)
    ensures LowerHex(c) <==> '0' <= c <= '9' || 'a' <= c <= 'f'
  {
    var digits := "0123456789abcdef";
    if '0' <= c <= '9' { assert digits[c as int - '0' as int] == c; }
    if 'a' <= c <= 'f' { assert digits[c as int - 'a' as int + 10] == c; }
    if LowerHex(c) {
      var i :| 0 <= i < 16 && digits[i] == c;
      assert digits[i] == if i < 10 then '0' + i as char else 'a' + (i - 10) as char;
    }
  }

  lemma HexIdIff(id: string)
    ensures HexId(id) <==> 64 <= |id| <= 128 && forall c | c in id :: LowerHex(c)
  {
    forall i | 0 <= i < |id| ensures LowerHex(id[i]) <==> '0' <= id[i] <= '9' || 'a' <= id[i] <= 'f' { LowerHexIs(id[i]); }
    assert forall c | c in id :: exists i | 0 <= i < |id| :: id[i] == c;
  }

  lemma PrefixedIff(s: string, prefix: string)
    ensures StartsWith(s, prefix) <==> exists rest :: s == prefix + rest
  {
    if StartsWith(s, prefix) { assert s == prefix + s[|prefix|..]; }
    if rest :| s == prefix + rest { assert s[..|prefix|] == prefix; }
  }

  lemma CoordinatesIff(safeUrl: string -> bool, payload: Value, url: string, id: string)
    ensures Coordinates(safeUrl, payload) == Some((url, id)) <==> HasCoordinates(safeUrl, payload, url, id)
  {
    HexIdIff(id);
    if payload.Obj? && Get(payload.fields, "signer_fingerprint").Str? {
      var signer := Get(payload.fields, "signer_fingerprint").s;
      PrefixedIff(signer, "sha256:");
      assert forall rest :: Says(payload.fields, "signer_fingerprint", Str("sha256:" + rest)) <==> signer == "sha256:" + rest;
    }
  }

  /** The id is a key of the object, an item of the list or a part of the text. */
  ghost predicate HoldsEntry(payload: Value, id: string) {
    || (payload.Obj? && id in payload.fields)
    || (payload.Arr? && Str(id) in payload.items)
    || (payload.Str? && exists before, behind :: payload.s == before + id + behind)
  }

  lemma HoldsEntryIff(payload: Value, id: string)
    ensures HasEntry(payload, id) <==> HoldsEntry(payload, id)
  {
    if payload.Str? {
      var s := payload.s;
      if HasEntry(payload, id) {
        var k :| 0 <= k <= |s| && StartsWith(s[k..], id);
        assert s == s[..k] + id + s[k + |id|..];
      }
      if before, behind :| s == before + id + behind {
        assert s[|before|..] == id + behind;
        assert StartsWith(s[|before|..], id);
      }
    }
  }
}
