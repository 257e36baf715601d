/**
 Wire values of the native personal store and the structural checks on them
 (`capture_binding.rs`, `parent_native.rs`).  JSON texts are the values they encode, so a
 descriptor's identity is the descriptor and a resource's identity is the pair below.
 */
module Native {
  import opened Results
  import opened Ordering

  type Id = string
  newtype Byte = b: int | 0 <= b < 256
  type Bytes = seq<Byte>

  const VERSION := "personal-capture/v1"
  const MEDIA := "text/plain;charset=utf-8"
  const MAX_COUNTER: nat := 9_007_199_254_740_990
  const MAX_BODY: nat := 1_048_576

  datatype Part = Part(
    partId: Id, role: string, objectId: Id, objectRevision: Id,
    sha256: string, sizeBytes: nat, mediaType: string)

  datatype Descriptor = Descriptor(
    schemaVersion: string, realmId: Id, captureId: Id, conversationId: Id, messageId: Id,
    expectedConversationRevision: nat, operation: string, idempotencyKey: Id,
    requestFingerprint: string, cancellationGeneration: nat, parts: seq<Part>)

  /** What the request fingerprint covers: everything but the allocated identifiers. */
  datatype FingerprintInput = FingerprintInput(
    version: string, realmId: Id, operation: string, conversationId: Id,
    expectedConversationRevision: nat, parts: seq<(string, string, nat, string)>)

  /** Library calls the store only applies: SHA-256 (twice), the UTF-8 test of RFC 3629, and
      the JSON decoder. */
  datatype Library = Library(
    sha256: Bytes -> string, fingerprint: FingerprintInput -> string, utf8: Bytes -> bool,
    descriptor: Bytes -> Option<Descriptor>, receipt: Bytes -> Option<ObjectReceipt>,
    cancellation: Bytes -> Option<CancelledResource>)

  const MAX_DESCRIPTOR_TEXT: nat := 8192
  const MAX_RECEIPT_TEXT: nat := 4096
  const MAX_CANCELLATION_TEXT: nat := 4096

  predicate HexDigit(c: char) {
    '0' <= c <= '9' || 'a' <= c <= 'f'
  }

  predicate Identifier(s: string) {
    && |s| == 36
    && forall i :: 0 <= i < 36 ==>
         if i == 8 || i == 13 || i == 18 || i == 23 then s[i] == '-' else HexDigit(s[i])
  }

  predicate DigestText(s: string) {
    |s| == 64 && forall i :: 0 <= i < 64 ==> HexDigit(s[i])
  }

  /** Text of `n` lower-case hexadecimal digits. */
  ghost predicate HexText(s: string, n: nat) {
    |s| == n && forall c :: c in s ==> c in "0123456789abcdef"
  }

  /** Five dash-separated groups of 8, 4, 4, 4 and 12 hexadecimal digits. */
  ghost predicate Grouped(s: string) {
    exists a, b, c, d, e ::
      && HexText(a, 8) && HexText(b, 4) && HexText(c, 4) && HexText(d, 4) && HexText(e, 12)
      && s == a + "-" + b + "-" + c + "-" + d + "-" + e
  }

  lemma HexDigits(s: string, n: nat)
    ensures HexText(s, n) <==> |s| == n && forall i :: 0 <= i < |s| ==> HexDigit(s[i])
  {
    forall c: char ensures c in "0123456789abcdef" <==> HexDigit(c) {
      HexDigitIs(c);
    }
    hide HexDigit;
    if HexText(s, n) {
      assert forall i :: 0 <= i < |s| ==> s[i] in s;
    }
  }

  lemma HexDigitIs(c: char)
    ensures c in "0123456789abcdef" <==> HexDigit(c)
  {
    var t := "0123456789abcdef";
    if HexDigit(c) {
      var i := if c <= '9' then c as int - '0' as int else c as int - 'a' as int + 10;
      assert t[i] == c;
    }
  }

  /** Identifiers are exactly the grouped texts, digests exactly 64 hexadecimal digits. */
  lemma ShapesAreExact(s: string)
    ensures Identifier(s) <==> Grouped(s)
    ensures DigestText(s) <==> HexText(s, 64)
  {
    HexDigits(s, 64);
    hide HexText;
    if Identifier(s) {
      var a, b, c, d, e := s[..8], s[9..13], s[14..18], s[19..23], s[24..];
      HexDigits(a, 8);
      HexDigits(b, 4);
      HexDigits(c, 4);
      HexDigits(d, 4);
      HexDigits(e, 12);
      assert s == a + "-" + b + "-" + c + "-" + d + "-" + e;
    }
    if Grouped(s) {
      var a, b, c, d, e :|
        && HexText(a, 8) && HexText(b, 4) && HexText(c, 4) && HexText(d, 4) && HexText(e, 12)
        && s == a + "-" + b + "-" + c + "-" + d + "-" + e;
      HexDigits(a, 8);
      HexDigits(b, 4);
      HexDigits(c, 4);
      HexDigits(d, 4);
      HexDigits(e, 12);
      GroupsAreDigits(a, b, c, d, e);
    }
  }

  lemma GroupsAreDigits(a: string, b: string, c: string, d: string, e: string)
    requires |a| == 8 && |b| == |c| == |d| == 4 && |e| == 12
    requires forall i :: 0 <= i < 8 ==> HexDigit(a[i])
    requires forall i :: 0 <= i < 4 ==> HexDigit(b[i]) && HexDigit(c[i]) && HexDigit(d[i])
    requires forall i :: 0 <= i < 12 ==> HexDigit(e[i])
    ensures Identifier(a + "-" + b + "-" + c + "-" + d + "-" + e)
  {
    hide HexDigit;
    var s := a + "-" + b + "-" + c + "-" + d + "-" + e;
    forall i | 0 <= i < 36 ensures if i == 8 || i == 13 || i == 18 || i == 23 then s[i] == '-' else HexDigit(s[i]) {
      assert i < 8 ==> s[i] == a[i];
      assert 9 <= i < 13 ==> s[i] == b[i - 9];
      assert 14 <= i < 18 ==> s[i] == c[i - 14];
      assert 19 <= i < 23 ==> s[i] == d[i - 19];
      assert 24 <= i ==> s[i] == e[i - 24];
    }
  }

  predicate PartAccepted(p: Part, i: nat) {
    && p.role == (if i == 0 then "note" else "attachment")
    && p.mediaType == MEDIA
    && p.sizeBytes <= (if i == 0 then 65_536 else MAX_BODY)
    && Identifier(p.partId) && Identifier(p.objectId) && Identifier(p.objectRevision)
    && DigestText(p.sha256)
  }

  function Fingerprinted(d: Descriptor): FingerprintInput {
    FingerprintInput(
      VERSION, d.realmId, d.operation, d.conversationId, d.expectedConversationRevision,
      seq(|d.parts|, i requires 0 <= i < |d.parts| =>
        (d.parts[i].role, d.parts[i].sha256, d.parts[i].sizeBytes, d.parts[i].mediaType)))
  }

  /** `CaptureDescriptor::parse` on an already decoded descriptor. */
  predicate Accepted(lib: Library, d: Descriptor) {
    && d.schemaVersion == VERSION
    && d.operation == "append_message"
    && Identifier(d.realmId) && Identifier(d.captureId) && Identifier(d.conversationId)
    && Identifier(d.messageId) && Identifier(d.idempotencyKey)
    && DigestText(d.requestFingerprint)
    && d.expectedConversationRevision <= MAX_COUNTER
    && d.cancellationGeneration <= MAX_COUNTER
    && 1 <= |d.parts| <= 2
    && (forall i :: 0 <= i < |d.parts| ==> PartAccepted(d.parts[i], i))
    && (|d.parts| == 2 ==>
          d.parts[0].partId != d.parts[1].partId && d.parts[0].objectId != d.parts[1].objectId)
    && lib.fingerprint(Fingerprinted(d)) == d.requestFingerprint
  }

  ghost predicate PartLike(p: Part, role: string, limit: nat) {
    && p.role == role && p.mediaType == "text/plain;charset=utf-8" && p.sizeBytes <= limit
    && Grouped(p.partId) && Grouped(p.objectId) && Grouped(p.objectRevision) && HexText(p.sha256, 64)
  }

  /** Which descriptors are accepted: a note, or a note and an attachment with other identifiers,
      under a fingerprint of everything but the allocated identifiers. */
  lemma DescriptorAcceptedExactly(lib: Library, d: Descriptor)
    ensures Accepted(lib, d) <==>
              && d.schemaVersion == "personal-capture/v1" && d.operation == "append_message"
              && Grouped(d.realmId) && Grouped(d.captureId) && Grouped(d.conversationId)
              && Grouped(d.messageId) && Grouped(d.idempotencyKey) && HexText(d.requestFingerprint, 64)
              && d.expectedConversationRevision <= 9_007_199_254_740_990
              && d.cancellationGeneration <= 9_007_199_254_740_990
              && (|d.parts| == 1 || |d.parts| == 2) && PartLike(d.parts[0], "note", 65_536)
              && var note := (d.parts[0].role, d.parts[0].sha256, d.parts[0].sizeBytes, d.parts[0].mediaType);
                 var covered :=
                   if |d.parts| == 1 then [note]
                   else [note, (d.parts[1].role, d.parts[1].sha256, d.parts[1].sizeBytes, d.parts[1].mediaType)];
              && (|d.parts| == 2 ==>
                    && PartLike(d.parts[1], "attachment", 1_048_576)
                    && d.parts[0].partId != d.parts[1].partId && d.parts[0].objectId != d.parts[1].objectId)
              && d.requestFingerprint == lib.fingerprint(FingerprintInput(
                   "personal-capture/v1", d.realmId, "append_message", d.conversationId, d.expectedConversationRevision, covered))
  {
    forall s { ShapesAreExact(s); }
    hide Identifier, Grouped, DigestText, HexText;
    if |d.parts| == 1 || |d.parts| == 2 {
      Covers(d);
      hide Fingerprinted;
      assert PartAccepted(d.parts[0], 0) <==> PartLike(d.parts[0], "note", 65_536);
      if |d.parts| == 2 {
        assert PartAccepted(d.parts[1], 1) <==> PartLike(d.parts[1], "attachment", 1_048_576);
      }
      hide PartAccepted, PartLike;
    }
  }

  lemma Covers(d: Descriptor)
    requires |d.parts| == 1 || |d.parts| == 2
    ensures var note := (d.parts[0].role, d.parts[0].sha256, d.parts[0].sizeBytes, d.parts[0].mediaType);
            Fingerprinted(d) == FingerprintInput(
              "personal-capture/v1", d.realmId, d.operation, d.conversationId, d.expectedConversationRevision,
              if |d.parts| == 1 then [note]
              else [note, (d.parts[1].role, d.parts[1].sha256, d.parts[1].sizeBytes, d.parts[1].mediaType)])
  {
  }

  datatype ObjectReceipt = ObjectReceipt(
    schemaVersion: string, realmId: Id, captureId: Id, partId: Id, objectId: Id,
    objectRevision: Id, sha256: string, sizeBytes: nat, mediaType: string,
    requestFingerprint: string, cancellationGeneration: nat)

  function ReceiptFor(d: Descriptor, p: Part): ObjectReceipt {
    ObjectReceipt(VERSION, d.realmId, d.captureId, p.partId, p.objectId, p.objectRevision,
      p.sha256, p.sizeBytes, p.mediaType, d.requestFingerprint, d.cancellationGeneration)
  }

  function ExpectedReceipts(d: Descriptor): seq<ObjectReceipt> {
    seq(|d.parts|, i requires 0 <= i < |d.parts| => ReceiptFor(d, d.parts[i]))
  }

  /** Position of the first part named `id`, or the number of parts. */
  function FindPart(parts: seq<Part>, id: Id): (k: nat)
    ensures k <= |parts|
    ensures k < |parts| ==> parts[k].partId == id
    ensures forall i :: 0 <= i < k ==> parts[i].partId != id
  {
    if parts == [] || parts[0].partId == id then 0 else 1 + FindPart(parts[1..], id)
  }

  /** `verify_receipt_bytes` on a decoded receipt. */
  predicate VerifyReceiptBytes(lib: Library, d: Descriptor, r: ObjectReceipt, bytes: Bytes) {
    |bytes| <= MAX_BODY &&
    var k := FindPart(d.parts, r.partId);
    k < |d.parts| &&
    var p := d.parts[k];
    && r.schemaVersion == VERSION && r.realmId == d.realmId && r.captureId == d.captureId
    && r.objectId == p.objectId && r.objectRevision == p.objectRevision && r.sha256 == p.sha256
    && r.sizeBytes == p.sizeBytes && r.mediaType == p.mediaType
    && r.requestFingerprint == d.requestFingerprint
    && r.cancellationGeneration == d.cancellationGeneration
    && |bytes| == p.sizeBytes && lib.sha256(bytes) == p.sha256 && lib.utf8(bytes)
  }

  // ---------------------------------------------------------------- requests

  datatype Operation = Stage | Verify | Status | CleanupCancelled

  /** A resource: the whole capture (`None`) or one part of it. */
  datatype Resource = Resource(descriptor: Descriptor, part: Option<Id>)

  datatype Request = Request(descriptor: Descriptor, selected: Option<ObjectReceipt>) {
    /** Requests exist only as `ParseRequest` makes them. */
    ghost predicate Parsed(lib: Library) {
      && Accepted(lib, descriptor)
      && (selected.Some? ==> selected.value in ExpectedReceipts(descriptor))
    }

    function CaptureId(): Id {
      descriptor.captureId
    }

    function ResourceIdentity(): Resource {
      Resource(descriptor, if selected.Some? then Some(selected.value.partId) else None)
    }

    function PartResources(): seq<Resource> {
      seq(|descriptor.parts|, i requires 0 <= i < |descriptor.parts| =>
        Resource(descriptor, Some(descriptor.parts[i].partId)))
    }

    predicate Accepts(op: Operation) {
      if op.CleanupCancelled? then selected.None? else selected.Some?
    }

    function Selected(): Result<ObjectReceipt> {
      if selected.Some? then Ok(selected.value) else Err(NotAvailable)
    }

    function VerifyBody(lib: Library, bytes: Bytes): Result<()> {
      var expected :- Selected();
      if VerifyReceiptBytes(lib, descriptor, expected, bytes) then Ok(()) else Err(Conflict)
    }
  }

  /** `Request::parse`. */
  function ParseRequest(lib: Library, text: Bytes, part: Option<Id>): (r: Result<Request>)
    ensures r.Ok? <==>
              && |text| <= 8192 && lib.descriptor(text).Some? && Accepted(lib, lib.descriptor(text).value)
              && (part.Some? ==> exists p :: p in lib.descriptor(text).value.parts && p.partId == part.value)
    ensures r.Ok? ==> r.value.Parsed(lib) && r.value.ResourceIdentity() == Resource(lib.descriptor(text).value, part)
    ensures r.Ok? ==> r.value.descriptor == lib.descriptor(text).value && (r.value.selected.Some? <==> part.Some?)
    ensures r.Ok? && part.Some? ==>
              exists p :: && p in r.value.descriptor.parts && p.partId == part.value == r.value.selected.value.partId
                          && p.sha256 == r.value.selected.value.sha256 && p.sizeBytes == r.value.selected.value.sizeBytes
    ensures r.Err? ==> r == Err(NotAvailable)
  {
    if |text| > MAX_DESCRIPTOR_TEXT || lib.descriptor(text).None? || !Accepted(lib, lib.descriptor(text).value) then Err(NotAvailable)
    else
      var d := lib.descriptor(text).value;
      if part.None? then Ok(Request(d, None))
      else
        var k := FindPart(d.parts, part.value);
        if k == |d.parts| then Err(NotAvailable)
        else
          assert d.parts[k] in d.parts;
          assert ExpectedReceipts(d)[k] == ReceiptFor(d, d.parts[k]);
          Ok(Request(d, Some(ReceiptFor(d, d.parts[k]))))
  }

  /** A parsed part request selects one of the capture's part resources. */
  lemma SelectedIsAPart(lib: Library, r: Request) returns (k: nat)
    requires r.Parsed(lib) && r.selected.Some?
    ensures k < |r.descriptor.parts|
    ensures r.selected.value == ReceiptFor(r.descriptor, r.descriptor.parts[k])
    ensures r.ResourceIdentity() == r.PartResources()[k]
  {
    var e := ExpectedReceipts(r.descriptor);
    k :| 0 <= k < |e| && e[k] == r.selected.value;
  }

  /** A body is accepted exactly when it is the declared one: its size, its digest, and text. */
  lemma BodyAcceptedExactly(lib: Library, r: Request, bytes: Bytes)
    requires r.Parsed(lib)
    ensures r.VerifyBody(lib, bytes).Ok? <==>
              && r.selected.Some? && |bytes| == r.selected.value.sizeBytes
              && lib.sha256(bytes) == r.selected.value.sha256 && lib.utf8(bytes)
    ensures r.VerifyBody(lib, bytes).Err? ==>
              r.VerifyBody(lib, bytes) == Err(if r.selected.Some? then Conflict else NotAvailable)
  {
    hide Accepted, VerifyReceiptBytes;
    if r.selected.Some? {
      VerifiedExactly(lib, r.descriptor, r.selected.value, bytes);
    }
  }

  /** For a receipt of the descriptor, the check is that the body is the declared one. */
  lemma VerifiedExactly(lib: Library, d: Descriptor, r: ObjectReceipt, bytes: Bytes)
    requires Accepted(lib, d) && r in ExpectedReceipts(d)
    ensures VerifyReceiptBytes(lib, d, r, bytes) <==> |bytes| == r.sizeBytes && lib.sha256(bytes) == r.sha256 && lib.utf8(bytes)
  {
    var k :| 0 <= k < |d.parts| && ExpectedReceipts(d)[k] == r;
    assert PartAccepted(d.parts[k], k);
    assert FindPart(d.parts, r.partId) == k;
  }

  /** The resource identity names the request: part identifiers are distinct. */
  lemma ResourceNamesRequest(lib: Library, r: Request, s: Request)
    requires r.Parsed(lib) && s.Parsed(lib) && r.ResourceIdentity() == s.ResourceIdentity()
    ensures r == s
  {
    if r.selected.Some? {
      var i := SelectedIsAPart(lib, r);
      var j := SelectedIsAPart(lib, s);
      assert r.descriptor.parts[i].partId == r.descriptor.parts[j].partId;
    }
  }

  // ---------------------------------------------------------------- outcomes

  /** The ten lineage fields every native outcome carries. */
  datatype OriginalEffect = OriginalEffect(
    ownerReceiptId: Id, realmId: Id, deploymentGeneration: nat, participantId: Id,
    processGeneration: nat, operationId: Id, intentId: Id, ownerCommitId: Id,
    localSeq: nat, resourceBindingDigest: string)

  datatype ObjectKey = ObjectKey(partId: Id, objectId: Id, objectRevision: Id)

  datatype Cancellation = Cancellation(
    schemaVersion: string, purpose: string, realmId: Id, captureId: Id,
    requestFingerprint: string, intentRevision: nat, cancellationGeneration: nat)

  datatype Outcome =
    | DiskStored(lineage: OriginalEffect, objectReceipt: ObjectReceipt, storageReceiptId: Id)
    | DiskCleaned(lineage: OriginalEffect, cancelledOwnerOutcomeId: Id,
        cancellation: Cancellation, cleanedObjects: seq<ObjectKey>)
  {
    predicate MatchesOriginal(original: OriginalEffect) {
      lineage == original
    }

    predicate MatchesOperation(op: Operation) {
      (DiskStored? && op.Stage?) || (DiskCleaned? && op.CleanupCancelled?)
    }

    function Receipt(r: Request): Result<ObjectReceipt> {
      if DiskStored? && lineage.realmId == r.descriptor.realmId
         && lineage.intentId == r.CaptureId() && r.selected == Some(objectReceipt)
      then Ok(objectReceipt)
      else Err(NotAvailable)
    }
  }

  // ---------------------------------------------------------------- cancellation

  datatype CancelledResource = CancelledResource(
    kind: string, intentId: Id, terminalIntentRevision: nat, cancellationGeneration: nat,
    ownerOutcomeId: Id, partIds: seq<Id>, cancellation: Cancellation)
  {
    predicate Validate(r: Request) {
      var d := r.descriptor;
      && r.selected.None?
      && kind == "cancellation"
      && intentId == d.captureId
      && cancellation.schemaVersion == "personal-capture/v1"
      && cancellation.purpose == "cancel_unpublished_capture"
      && cancellation.realmId == d.realmId
      && cancellation.captureId == d.captureId
      && cancellation.requestFingerprint == d.requestFingerprint
      && Sort(TextLe, partIds) == Sort(TextLe, PartIds(d))
      && cancellationGeneration == d.cancellationGeneration + 1
      && cancellation.cancellationGeneration == cancellationGeneration
      && 2 <= terminalIntentRevision <= 9_007_199_254_740_991
      && cancellation.intentRevision == terminalIntentRevision
    }

    function Objects(r: Request): Result<seq<ObjectKey>> {
      if Validate(r) then Ok(ObjectKeys(r.descriptor)) else Err(NotAvailable)
    }

    function VerifyCleaned(r: Request, o: Outcome): Result<()> {
      if !o.DiskCleaned? then Err(NotAvailable)
      else
        var expected :- Objects(r);
        if && o.lineage.realmId == r.descriptor.realmId
           && o.lineage.intentId == intentId
           && o.cancelledOwnerOutcomeId == ownerOutcomeId
           && o.cancellation == cancellation
           && |o.cleanedObjects| == |expected|
           && forall k :: k in expected ==> multiset(o.cleanedObjects)[k] == 1
        then Ok(()) else Err(NotAvailable)
    }
  }

  /** `CancelledResource::parse`.  An accepted cancellation is one of the whole capture: it names
      the capture, lists each of its parts and cancels the generation after the captured one. */
  function ParseCancelled(lib: Library, text: Bytes, r: Request): (out: Result<CancelledResource>)
    ensures out.Ok? ==>
              && Some(out.value) == lib.cancellation(text)
              && r.Accepts(CleanupCancelled) && out.value.intentId == r.CaptureId()
              && multiset(out.value.partIds) == multiset(PartIds(r.descriptor))
              && |out.value.partIds| == |r.descriptor.parts|
              && (forall i :: 0 <= i < |r.descriptor.parts| ==> r.descriptor.parts[i].partId in out.value.partIds)
              && out.value.cancellationGeneration > r.descriptor.cancellationGeneration
              && out.value.Objects(r) == Ok(ObjectKeys(r.descriptor))
    ensures out.Err? ==> out == Err(NotAvailable)
  {
    if |text| > MAX_CANCELLATION_TEXT then Err(NotAvailable)
    else
      match lib.cancellation(text)
      case Some(c) =>
        if c.Validate(r) then
          ValidatedListsEveryPart(c, r);
          EveryPartIsNamed(c.partIds, r.descriptor);
          Ok(c)
        else Err(NotAvailable)
      case None => Err(NotAvailable)
  }

  function PartIds(d: Descriptor): seq<Id> {
    seq(|d.parts|, i requires 0 <= i < |d.parts| => d.parts[i].partId)
  }

  function ObjectKeys(d: Descriptor): seq<ObjectKey> {
    seq(|d.parts|, i requires 0 <= i < |d.parts| =>
      ObjectKey(d.parts[i].partId, d.parts[i].objectId, d.parts[i].objectRevision))
  }

  ghost predicate Distinct<T>(s: seq<T>) {
    forall i, j :: 0 <= i < j < |s| ==> s[i] != s[j]
  }

  /** Counting every expected element once among as many elements is covering exactly. */
  lemma {:induction false} ExactCover<T>(found: seq<T>, expected: seq<T>)
    requires |found| == |expected| && Distinct(expected)
    ensures (forall k :: k in expected ==> multiset(found)[k] == 1) <==> multiset(found) == multiset(expected)
  {
    DistinctCounts(expected);
    var a, b := multiset(expected), multiset(found);
    if forall k :: k in expected ==> b[k] == 1 {
      assert a <= b;
      assert b == a + (b - a);
      assert |b - a| == 0;
    } else {
      var k :| k in expected && b[k] != 1;
      assert a[k] == 1;
    }
  }

  lemma {:induction false} DistinctCounts<T>(s: seq<T>)
    requires Distinct(s)
    ensures forall k :: multiset(s)[k] == if k in s then 1 else 0
  {
    if s != [] {
      DistinctCounts(s[1..]);
      assert s == [s[0]] + s[1..];
    }
  }

  lemma AcceptedIsDistinct(lib: Library, d: Descriptor)
    requires Accepted(lib, d)
    ensures Distinct(ObjectKeys(d)) && Distinct(ExpectedReceipts(d))
  {
  }

  /** An accepted clean-up names each object of the capture once, in any order; and every
      such list is accepted. */
  lemma CleanedIsAPermutation(lib: Library, r: Request, c: CancelledResource, o: Outcome)
    requires r.Parsed(lib)
    ensures c.VerifyCleaned(r, o).Ok? <==>
              && o.DiskCleaned? && c.Validate(r)
              && o.lineage.realmId == r.descriptor.realmId
              && o.lineage.intentId == c.intentId
              && o.cancelledOwnerOutcomeId == c.ownerOutcomeId
              && o.cancellation == c.cancellation
              && multiset(o.cleanedObjects) == multiset(ObjectKeys(r.descriptor))
  {
    AcceptedIsDistinct(lib, r.descriptor);
    hide Accepted, Distinct;
    if o.DiskCleaned? {
      var keys := ObjectKeys(r.descriptor);
      if |o.cleanedObjects| == |keys| {
        ExactCover(o.cleanedObjects, keys);
      } else {
        assert |multiset(o.cleanedObjects)| != |multiset(keys)|;
      }
    }
  }

  /** In particular it names every object of the capture by all three of its identifiers. */
  lemma CleanedNamesEveryObject(lib: Library, r: Request, c: CancelledResource, o: Outcome)
    requires r.Parsed(lib) && c.VerifyCleaned(r, o).Ok?
    ensures o.DiskCleaned? && |o.cleanedObjects| == |r.descriptor.parts|
    ensures forall p :: p in r.descriptor.parts ==> ObjectKey(p.partId, p.objectId, p.objectRevision) in o.cleanedObjects
  {
    CleanedIsAPermutation(lib, r, c, o);
    hide Accepted, CancelledResource.Validate;
    var keys := ObjectKeys(r.descriptor);
    forall p | p in r.descriptor.parts ensures ObjectKey(p.partId, p.objectId, p.objectRevision) in o.cleanedObjects {
      var i :| 0 <= i < |r.descriptor.parts| && r.descriptor.parts[i] == p;
      assert keys[i] in multiset(o.cleanedObjects);
    }
  }

  /** A validated cancellation lists exactly the parts of the capture, in any order. */
  lemma ValidatedListsEveryPart(c: CancelledResource, r: Request)
    requires c.Validate(r)
    ensures multiset(c.partIds) == multiset(PartIds(r.descriptor))
  {
    TextLeIsTotal(c.partIds);
    SortComparesMultisets(TextLe, c.partIds, PartIds(r.descriptor));
  }

  lemma EveryPartIsNamed(ids: seq<Id>, d: Descriptor)
    requires multiset(ids) == multiset(PartIds(d))
    ensures |ids| == |d.parts| && forall i :: 0 <= i < |d.parts| ==> d.parts[i].partId in ids
  {
    assert |multiset(ids)| == |multiset(PartIds(d))|;
    forall i | 0 <= i < |d.parts| ensures d.parts[i].partId in ids {
      assert PartIds(d)[i] in multiset(ids);
    }
  }

  /** Which texts are accepted, without sorting: those within the limit that decode to a
      cancellation whose fields are the request's and whose part list is any arrangement of its parts. */
  lemma CancellationAcceptedExactly(lib: Library, text: Bytes, r: Request)
    ensures ParseCancelled(lib, text, r).Ok? <==>
              && |text| <= 4096 && lib.cancellation(text).Some? && r.selected.None?
              && var c, d := lib.cancellation(text).value, r.descriptor;
              && multiset(c.partIds) == multiset(PartIds(d))
              && c == CancelledResource(
                   "cancellation", d.captureId, c.terminalIntentRevision, d.cancellationGeneration + 1, c.ownerOutcomeId, c.partIds,
                   Cancellation("personal-capture/v1", "cancel_unpublished_capture", d.realmId, d.captureId,
                     d.requestFingerprint, c.terminalIntentRevision, d.cancellationGeneration + 1))
              && 2 <= c.terminalIntentRevision <= 9_007_199_254_740_991
  {
    if lib.cancellation(text).Some? {
      var c := lib.cancellation(text).value;
      TextLeIsTotal(c.partIds);
      SortComparesMultisets(TextLe, c.partIds, PartIds(r.descriptor));
    }
  }

  /** `verify_receipt_bytes`: a receipt text and the body it is for. */
  predicate VerifyReceiptText(lib: Library, d: Descriptor, text: Bytes, bytes: Bytes) {
    && |text| <= MAX_RECEIPT_TEXT && lib.receipt(text).Some?
    && VerifyReceiptBytes(lib, d, lib.receipt(text).value, bytes)
  }

  /** `verify_receipt_set`: accepted sets are exactly those whose texts are within the limit and
      decode to a bijection with the parts, with bodies that check out. */
  method VerifyReceiptSet(lib: Library, d: Descriptor, items: seq<(Bytes, Bytes)>) returns (ok: bool)
    requires Accepted(lib, d)
    ensures ok <==>
              && Decoded(lib, items)
              && multiset(Receipts(lib, items)) == multiset(ExpectedReceipts(d))
              && forall i :: 0 <= i < |items| ==>
                   var receipt := Receipts(lib, items)[i];
                   && |items[i].1| == receipt.sizeBytes && lib.sha256(items[i].1) == receipt.sha256 && lib.utf8(items[i].1)
  {
    hide Accepted, VerifyReceiptBytes;
    if |items| != |d.parts| {
      if Decoded(lib, items) {
        assert |multiset(Receipts(lib, items))| != |multiset(ExpectedReceipts(d))|;
      }
      return false;
    }
    var seen: set<Id> := {};
    for i := 0 to |items|
      invariant forall j :: 0 <= j < i ==> VerifyReceiptText(lib, d, items[j].0, items[j].1)
      invariant seen == set j | 0 <= j < i :: lib.receipt(items[j].0).value.partId
      invariant forall j, k :: 0 <= j < k < i ==>
                  lib.receipt(items[j].0).value.partId != lib.receipt(items[k].0).value.partId
    {
      if !VerifyReceiptText(lib, d, items[i].0, items[i].1) {
        if Decoded(lib, items) && multiset(Receipts(lib, items)) == multiset(ExpectedReceipts(d)) {
          InMultiset(Receipts(lib, items), ExpectedReceipts(d), i);
          VerifiedExactly(lib, d, Receipts(lib, items)[i], items[i].1);
        }
        return false;
      }
      var part := lib.receipt(items[i].0).value.partId;
      if part in seen {
        if Decoded(lib, items) {
          var j :| 0 <= j < i && lib.receipt(items[j].0).value.partId == part;
          RepeatIsNoCover(lib, d, Receipts(lib, items), Bodies(items), j, i);
        }
        return false;
      }
      seen := seen + {part};
    }
    VerifiedIsExpected(lib, d, Receipts(lib, items), Bodies(items));
    forall i | 0 <= i < |items|
      ensures var receipt := Receipts(lib, items)[i];
              |items[i].1| == receipt.sizeBytes && lib.sha256(items[i].1) == receipt.sha256 && lib.utf8(items[i].1)
    {
      InMultiset(Receipts(lib, items), ExpectedReceipts(d), i);
      VerifiedExactly(lib, d, Receipts(lib, items)[i], items[i].1);
    }
    return true;
  }

  predicate Decoded(lib: Library, items: seq<(Bytes, Bytes)>) {
    forall i :: 0 <= i < |items| ==> |items[i].0| <= 4096 && lib.receipt(items[i].0).Some?
  }

  function Receipts(lib: Library, items: seq<(Bytes, Bytes)>): seq<ObjectReceipt>
    requires Decoded(lib, items)
  {
    seq(|items|, i requires 0 <= i < |items| => lib.receipt(items[i].0).value)
  }

  function Bodies(items: seq<(Bytes, Bytes)>): seq<Bytes> {
    seq(|items|, i requires 0 <= i < |items| => items[i].1)
  }

  lemma InMultiset<T>(a: seq<T>, b: seq<T>, i: nat)
    requires multiset(a) == multiset(b) && i < |a|
    ensures a[i] in b
  {
    assert a[i] in multiset(b);
  }

  lemma RepeatCounts<T>(s: seq<T>, j: nat, i: nat)
    requires j < i < |s| && s[j] == s[i]
    ensures multiset(s)[s[i]] >= 2
  {
    assert s == s[..i] + s[i..];
    assert s[j] in s[..i] && s[i] in s[i..];
  }

  lemma VerifiedIsAPart(lib: Library, d: Descriptor, r: ObjectReceipt, bytes: Bytes)
    requires VerifyReceiptBytes(lib, d, r, bytes)
    ensures var k := FindPart(d.parts, r.partId); k < |d.parts| && r == ReceiptFor(d, d.parts[k])
  {
  }

  lemma RepeatIsNoCover(lib: Library, d: Descriptor, rs: seq<ObjectReceipt>, bodies: seq<Bytes>, j: nat, i: nat)
    requires Accepted(lib, d) && j < i < |rs| == |bodies| && rs[j].partId == rs[i].partId
    requires VerifyReceiptBytes(lib, d, rs[i], bodies[i]) && VerifyReceiptBytes(lib, d, rs[j], bodies[j])
    ensures multiset(rs) != multiset(ExpectedReceipts(d))
  {
    VerifiedIsAPart(lib, d, rs[i], bodies[i]);
    VerifiedIsAPart(lib, d, rs[j], bodies[j]);
    AcceptedIsDistinct(lib, d);
    hide Accepted, VerifyReceiptBytes, Distinct;
    DistinctCounts(ExpectedReceipts(d));
    assert rs[j] == rs[i] == ReceiptFor(d, d.parts[FindPart(d.parts, rs[i].partId)]);
    RepeatCounts(rs, j, i);
  }

  lemma VerifiedIsExpected(lib: Library, d: Descriptor, rs: seq<ObjectReceipt>, bodies: seq<Bytes>)
    requires Accepted(lib, d) && |rs| == |bodies| == |d.parts|
    requires forall i :: 0 <= i < |rs| ==> VerifyReceiptBytes(lib, d, rs[i], bodies[i])
    requires forall j, k :: 0 <= j < k < |rs| ==> rs[j].partId != rs[k].partId
    ensures multiset(rs) == multiset(ExpectedReceipts(d))
  {
    var e := ExpectedReceipts(d);
    AcceptedIsDistinct(lib, d);
    forall i | 0 <= i < |rs| ensures rs[i] in e {
      VerifiedIsAPart(lib, d, rs[i], bodies[i]);
      assert rs[i] == e[FindPart(d.parts, rs[i].partId)];
    }
    assert Distinct(rs);
    hide Accepted, VerifyReceiptBytes, Distinct;
    DistinctCounts(rs);
    DistinctCounts(e);
    ExactCover(e, rs);
  }
}
