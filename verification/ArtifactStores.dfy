/** Two artifact stores: the in-memory fixture store, which is the specification, and the store that
    keeps content as bytes behind a port. Over every sequence of operations they answer alike. */
module ArtifactStores {
  import opened Basics
  import opened Utf8

  type BlobRef = nat

  datatype Meta = Meta(artifactType: string, producer: string, source: string, privacy: string)

  datatype ArtifactRef = ArtifactRef(
    id: string, meta: Meta, digest: string, size: nat, lifecycle: string, retention: string)

  /** The ref both stores build; `hash` is the content digest, about which nothing is assumed. */
  function MakeRef(hash: Text -> string, id: string, meta: Meta, content: Text, size: nat, retention: string): ArtifactRef {
    ArtifactRef(id, meta, hash(content), size, "lifecycle:" + id + ":active", retention)
  }

  // ----- the stores as state machines --------------------------------------------------------

  datatype Op =
    | Write(id: string, meta: Meta, content: Text)
    | Read(id: string)
    | GetRef(id: string)
    | ListRefs
    | ForeignWrite(bytes: seq<byte>)   // another client of the same byte port

  datatype Out =
    | Written(ref: ArtifactRef)
    | EncodeError
    | DecodeError
    | Content(text: Option<Text>)
    | Ref(found: Option<ArtifactRef>)
    | Refs(refs: seq<ArtifactRef>)
    | Nothing

  datatype MemState = MemState(content: Dict<string, Text>, refs: Dict<string, ArtifactRef>)

  datatype ByteState = ByteState(
    refs: Dict<string, ArtifactRef>, contentRefs: Dict<string, BlobRef>, blobs: map<BlobRef, seq<byte>>)

  function MemStep(hash: Text -> string, st: MemState, op: Op): (MemState, Out)
    requires st.refs.Valid()
  {
    match op
    case Write(id, meta, content) =>
      (match Encode(content)
       case None => (st, EncodeError)
       case Some(body) =>
         var ref := MakeRef(hash, id, meta, content, |body|, "retention:runtime-fixture");
         (MemState(st.content.Put(id, content), st.refs.Put(id, ref)), Written(ref)))
    case Read(id) => (st, Content(st.content.Get(id)))
    case GetRef(id) => (st, Ref(st.refs.Get(id)))
    case ListRefs => (st, Refs(st.refs.Values()))
    case ForeignWrite(_) => (st, Nothing)
  }

  /** A port may name new bytes as it likes, as long as it does not rename what it already holds. */
  predicate LegalName(blobs: map<BlobRef, seq<byte>>, name: BlobRef, body: seq<byte>) {
    name in blobs ==> blobs[name] == body
  }

  function ByteRead(st: ByteState, id: string): Out {
    match st.contentRefs.Get(id)
    case None => Content(None)
    case Some(blob) =>
      if blob !in st.blobs then DecodeError
      else
        match Decode(st.blobs[blob])
        case None => DecodeError
        case Some(text) => Content(Some(text))
  }

  function ByteStep(hash: Text -> string, st: ByteState, op: Op, name: BlobRef): (ByteState, Out)
    requires st.refs.Valid()
  {
    match op
    case Write(id, meta, content) =>
      (match Encode(content)
       case None => (st, EncodeError)
       case Some(body) =>
         var ref := MakeRef(hash, id, meta, content, |body|, "retention:runtime-persisted");
         (ByteState(st.refs.Put(id, ref), st.contentRefs.Put(id, name), st.blobs[name := body]), Written(ref)))
    case Read(id) => (st, ByteRead(st, id))
    case GetRef(id) => (st, Ref(st.refs.Get(id)))
    case ListRefs => (st, Refs(st.refs.Values()))
    case ForeignWrite(bytes) => (st.(blobs := st.blobs[name := bytes]), Nothing)
  }

  predicate LegalStep(st: ByteState, op: Op, name: BlobRef) {
    match op
    case Write(_, _, content) => (match Encode(content) case None => true case Some(body) => LegalName(st.blobs, name, body))
    case ForeignWrite(bytes) => LegalName(st.blobs, name, bytes)
    case _ => true
  }

  // ----- refinement --------------------------------------------------------------------------

  function Untagged(ref: ArtifactRef): ArtifactRef { ref.(retention := "") }

  function UntaggedOpt(ref: Option<ArtifactRef>): Option<ArtifactRef> {
    if ref.Some? then Some(Untagged(ref.value)) else None
  }

  /** The same answer, apart from the retention tag in refs. */
  predicate SameAnswer(a: Out, b: Out) {
    match (a, b)
    case (Written(r), Written(s)) => Untagged(r) == Untagged(s)
    case (Ref(r), Ref(s)) => UntaggedOpt(r) == UntaggedOpt(s)
    case (Refs(rs), Refs(ss)) =>
      |rs| == |ss| && forall i :: 0 <= i < |rs| ==> Untagged(rs[i]) == Untagged(ss[i])
    case _ => a == b && !a.Written? && !a.Ref? && !a.Refs?
  }

  ghost predicate RefsMatch(a: Dict<string, ArtifactRef>, b: Dict<string, ArtifactRef>) {
    forall id :: id in a.entries ==> (id in b.entries && Untagged(a.entries[id]) == Untagged(b.entries[id]))
  }

  /** The port holds the UTF-8 form of every text. */
  ghost predicate TextsMatch(
    texts: Dict<string, Text>, names: Dict<string, BlobRef>, blobs: map<BlobRef, seq<byte>>)
  {
    forall id :: id in texts.entries ==>
      (id in names.entries && names.entries[id] in blobs
       && Decode(blobs[names.entries[id]]) == Some(texts.entries[id]))
  }

  /** The byte store holds, under the same ids in the same order, the same refs and the UTF-8 form
      of each text. */
  ghost predicate Sim(mem: MemState, bytes: ByteState) {
    && mem.content.Valid() && mem.refs.Valid() && bytes.refs.Valid() && bytes.contentRefs.Valid()
    && mem.content.order == mem.refs.order == bytes.refs.order == bytes.contentRefs.order
    && RefsMatch(mem.refs, bytes.refs)
    && TextsMatch(mem.content, bytes.contentRefs, bytes.blobs)
  }

  lemma SameDomains(mem: MemState, bytes: ByteState)
    requires Sim(mem, bytes)
    ensures mem.content.entries.Keys == mem.refs.entries.Keys
         == bytes.refs.entries.Keys == bytes.contentRefs.entries.Keys
  {
    forall id
      ensures id in mem.content.entries <==> id in mem.refs.entries
      ensures id in mem.refs.entries <==> id in bytes.refs.entries
      ensures id in bytes.refs.entries <==> id in bytes.contentRefs.entries
    {
      assert id in mem.content.order <==> id in mem.refs.order;
    }
  }

  lemma PutRefs(a: Dict<string, ArtifactRef>, b: Dict<string, ArtifactRef>, id: string, r: ArtifactRef, s: ArtifactRef)
    requires RefsMatch(a, b) && Untagged(r) == Untagged(s)
    ensures RefsMatch(a.Put(id, r), b.Put(id, s))
  {}

  lemma PutText(
    texts: Dict<string, Text>, names: Dict<string, BlobRef>, blobs: map<BlobRef, seq<byte>>,
    id: string, text: Text, name: BlobRef, body: seq<byte>)
    requires TextsMatch(texts, names, blobs) && LegalName(blobs, name, body) && Decode(body) == Some(text)
    ensures TextsMatch(texts.Put(id, text), names.Put(id, name), blobs[name := body])
  {}

  lemma WriteSimulates(hash: Text -> string, mem: MemState, bytes: ByteState, op: Op, name: BlobRef)
    requires Sim(mem, bytes) && op.Write? && LegalStep(bytes, op, name)
    ensures Sim(MemStep(hash, mem, op).0, ByteStep(hash, bytes, op, name).0)
    ensures SameAnswer(MemStep(hash, mem, op).1, ByteStep(hash, bytes, op, name).1)
  {
    if Encode(op.content).Some? {
      var body := Encode(op.content).value;
      var r := MakeRef(hash, op.id, op.meta, op.content, |body|, "retention:runtime-fixture");
      var s := MakeRef(hash, op.id, op.meta, op.content, |body|, "retention:runtime-persisted");
      DecodeEncode(op.content);
      SameDomains(mem, bytes);
      mem.content.PutValid(op.id, op.content);
      mem.refs.PutValid(op.id, r);
      bytes.refs.PutValid(op.id, s);
      bytes.contentRefs.PutValid(op.id, name);
      PutRefs(mem.refs, bytes.refs, op.id, r, s);
      PutText(mem.content, bytes.contentRefs, bytes.blobs, op.id, op.content, name, body);
    }
  }

  /** One operation keeps the two stores in step and gets the same answer from both. */
  lemma StepSimulates(hash: Text -> string, mem: MemState, bytes: ByteState, op: Op, name: BlobRef)
    requires Sim(mem, bytes) && LegalStep(bytes, op, name)
    ensures Sim(MemStep(hash, mem, op).0, ByteStep(hash, bytes, op, name).0)
    ensures SameAnswer(MemStep(hash, mem, op).1, ByteStep(hash, bytes, op, name).1)
  {
    SameDomains(mem, bytes);
    if op.Write? {
      WriteSimulates(hash, mem, bytes, op, name);
    }
  }

  function MemRun(hash: Text -> string, st: MemState, ops: seq<Op>): seq<Out>
    requires st.refs.Valid()
    decreases |ops|
  {
    if ops == [] then []
    else
      var (st', out) := MemStep(hash, st, ops[0]);
      MemStepKeepsValid(hash, st, ops[0]);
      [out] + MemRun(hash, st', ops[1..])
  }

  lemma MemStepKeepsValid(hash: Text -> string, st: MemState, op: Op)
    requires st.refs.Valid()
    ensures MemStep(hash, st, op).0.refs.Valid()
  {
    if op.Write? && Encode(op.content).Some? {
      st.refs.PutValid(op.id, MemStep(hash, st, op).0.refs.entries[op.id]);
    }
  }

  lemma ByteStepKeepsValid(hash: Text -> string, st: ByteState, op: Op, name: BlobRef)
    requires st.refs.Valid()
    ensures ByteStep(hash, st, op, name).0.refs.Valid()
  {
    if op.Write? && Encode(op.content).Some? {
      st.refs.PutValid(op.id, ByteStep(hash, st, op, name).0.refs.entries[op.id]);
    }
  }

  /** The port's choices of names are legal at every step of the run. */
  ghost predicate LegalRun(hash: Text -> string, st: ByteState, ops: seq<Op>, names: seq<BlobRef>)
    requires st.refs.Valid() && |names| == |ops|
    decreases |ops|
  {
    ops == [] || (
      ByteStepKeepsValid(hash, st, ops[0], names[0]);
      LegalStep(st, ops[0], names[0]) && LegalRun(hash, ByteStep(hash, st, ops[0], names[0]).0, ops[1..], names[1..]))
  }

  function ByteRun(hash: Text -> string, st: ByteState, ops: seq<Op>, names: seq<BlobRef>): seq<Out>
    requires st.refs.Valid() && |names| == |ops|
    decreases |ops|
  {
    if ops == [] then []
    else
      var (st', out) := ByteStep(hash, st, ops[0], names[0]);
      ByteStepKeepsValid(hash, st, ops[0], names[0]);
      [out] + ByteRun(hash, st', ops[1..], names[1..])
  }

  ghost predicate SameAnswers(a: seq<Out>, b: seq<Out>) {
    |a| == |b| && forall i :: 0 <= i < |a| ==> SameAnswer(a[i], b[i])
  }

  lemma {:induction false} RunSimulates(
    hash: Text -> string, mem: MemState, bytes: ByteState, ops: seq<Op>, names: seq<BlobRef>)
    requires Sim(mem, bytes) && |names| == |ops| && LegalRun(hash, bytes, ops, names)
    ensures SameAnswers(MemRun(hash, mem, ops), ByteRun(hash, bytes, ops, names))
    decreases |ops|
  {
    if ops != [] {
      StepSimulates(hash, mem, bytes, ops[0], names[0]);
      RunSimulates(hash, MemStep(hash, mem, ops[0]).0, ByteStep(hash, bytes, ops[0], names[0]).0, ops[1..], names[1..]);
    }
  }

  /** From empty stores, whatever the port already holds and however it names what it is given, the
      byte-backed store answers every sequence of operations as the in-memory store does. */
  lemma StoresAgree(hash: Text -> string, blobs: map<BlobRef, seq<byte>>, ops: seq<Op>, names: seq<BlobRef>)
    requires |names| == |ops|
    requires LegalRun(hash, ByteState(EmptyDict(), EmptyDict(), blobs), ops, names)
    ensures SameAnswers(MemRun(hash, MemState(EmptyDict(), EmptyDict()), ops),
                        ByteRun(hash, ByteState(EmptyDict(), EmptyDict(), blobs), ops, names))
  {
    RunSimulates(hash, MemState(EmptyDict(), EmptyDict()), ByteState(EmptyDict(), EmptyDict(), blobs), ops, names);
  }

  // ----- the stores as the program runs them -------------------------------------------------

  class BytePort {
    var blobs: map<BlobRef, seq<byte>>

    constructor ()
      ensures blobs == map[]
    {
      blobs := map[];
    }

    method WriteBytes(body: seq<byte>) returns (name: BlobRef)
      modifies this
      ensures LegalName(old(blobs), name, body) && blobs == old(blobs)[name := body]
    {
      name := FreeName(blobs);
      blobs := blobs[name := body];
    }

    method ReadBytes(name: BlobRef) returns (body: seq<byte>)
      requires name in blobs
      ensures body == blobs[name]
    {
      body := blobs[name];
    }
  }

  /** Some name not yet taken. */
  method FreeName(blobs: map<BlobRef, seq<byte>>) returns (name: BlobRef)
    ensures name !in blobs
  {
    name := 0;
    ghost var below: set<BlobRef> := {};
    while name in blobs
      invariant below <= blobs.Keys && forall n: nat :: n in below <==> n < name
      decreases blobs.Keys - below
    {
      below := below + {name};
      name := name + 1;
    }
  }

  class InMemoryArtifactStore {
    const hash: Text -> string
    var content: Dict<string, Text>
    var refs: Dict<string, ArtifactRef>

    ghost predicate Valid() reads this { refs.Valid() }

    function State(): MemState reads this { MemState(content, refs) }

    constructor (hash: Text -> string)
      ensures Valid() && this.hash == hash && State() == MemState(EmptyDict(), EmptyDict())
    {
      this.hash, content, refs := hash, EmptyDict(), EmptyDict();
    }

    method WriteArtifact(id: string, meta: Meta, text: Text) returns (out: Out)
      requires Valid()
      modifies this
      ensures Valid() && (State(), out) == MemStep(hash, old(State()), Write(id, meta, text))
    {
      var body := Encode(text);
      if body.None? { return EncodeError; }
      var ref := MakeRef(hash, id, meta, text, |body.value|, "retention:runtime-fixture");
      refs.PutValid(id, ref);
      content := content.Put(id, text);
      refs := refs.Put(id, ref);
      return Written(ref);
    }

    method ReadArtifact(id: string) returns (out: Out)
      requires Valid()
      ensures out == MemStep(hash, State(), Read(id)).1
    {
      return Content(content.Get(id));
    }

    method GetArtifactRef(id: string) returns (out: Out)
      requires Valid()
      ensures out == MemStep(hash, State(), GetRef(id)).1
    {
      return Ref(refs.Get(id));
    }

    method ListArtifactRefs() returns (out: Out)
      requires Valid()
      ensures out == MemStep(hash, State(), ListRefs).1
    {
      return Refs(refs.Values());
    }
  }

  class PersistedRuntimeArtifactStore {
    const hash: Text -> string
    const port: BytePort
    var refs: Dict<string, ArtifactRef>
    var contentRefs: Dict<string, BlobRef>

    function State(): ByteState reads this, port { ByteState(refs, contentRefs, port.blobs) }

    /** Every id has a ref, and the port holds readable bytes for it. */
    ghost predicate Valid() reads this, port {
      && refs.Valid() && contentRefs.Valid() && refs.order == contentRefs.order
      && forall id :: id in contentRefs.entries ==>
           contentRefs.entries[id] in port.blobs && Decode(port.blobs[contentRefs.entries[id]]).Some?
    }

    constructor (hash: Text -> string, port: BytePort)
      ensures Valid() && this.hash == hash && this.port == port
      ensures State() == ByteState(EmptyDict(), EmptyDict(), port.blobs)
    {
      this.hash, this.port, refs, contentRefs := hash, port, EmptyDict(), EmptyDict();
    }

    method WriteArtifact(id: string, meta: Meta, text: Text) returns (out: Out, ghost name: BlobRef)
      requires Valid()
      modifies this, port
      ensures Valid() && LegalStep(old(State()), Write(id, meta, text), name)
      ensures (State(), out) == ByteStep(hash, old(State()), Write(id, meta, text), name)
    {
      name := 0;
      var body := Encode(text);
      if body.None? { out := EncodeError; return; }
      DecodeEncode(text);
      var backing := port.WriteBytes(body.value);
      name := backing;
      var ref := MakeRef(hash, id, meta, text, |body.value|, "retention:runtime-persisted");
      refs.PutValid(id, ref);
      contentRefs.PutValid(id, backing);
      assert id in refs.order <==> id in contentRefs.order;
      refs := refs.Put(id, ref);
      contentRefs := contentRefs.Put(id, backing);
      out := Written(ref);
    }

    /** Reading never fails to decode. */
    method ReadArtifact(id: string) returns (out: Out)
      requires Valid()
      ensures out == ByteStep(hash, State(), Read(id), 0).1 && out.Content?
    {
      var backing := contentRefs.Get(id);
      if backing.None? { return Content(None); }
      var body := port.ReadBytes(backing.value);
      return Content(Some(Decode(body).value));
    }

    method GetArtifactRef(id: string) returns (out: Out)
      requires Valid()
      ensures out == ByteStep(hash, State(), GetRef(id), 0).1
    {
      return Ref(refs.Get(id));
    }

    method ListArtifactRefs() returns (out: Out)
      requires Valid()
      ensures out == ByteStep(hash, State(), ListRefs, 0).1
    {
      return Refs(refs.Values());
    }
  }
}
