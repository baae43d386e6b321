/** The disk-share request processor of one connection: its handle table,
    its enumeration cursors, and the CREATE, CLOSE, QUERY_DIRECTORY,
    QUERY_INFO and READ handlers. */
module DiskProcessor {
  import opened Types
  import opened Align
  import Chain
  import opened Paths
  import opened Wildcard
  import opened Metadata
  import opened Enumeration
  import opened Contexts

  /** CREATE disposition FILE_OPEN: open an existing file. */
  const FILE_OPEN: nat := 1
  /** QUERY_INFO info type SMB2_0_INFO_FILE. */
  const SMB2_0_INFO_FILE: nat := 1
  /** READ channel SMB2_CHANNEL_NONE. */
  const SMB2_CHANNEL_NONE: nat := 0
  /** CREATE action FILE_OPENED. */
  const FILE_OPENED: nat := 1
  /** CLOSE response flag SMB2_CLOSE_FLAG_POSTQUERY_ATTRIB. */
  const CLOSE_FLAG_POSTQUERY_ATTRIB: nat := 1

  /** An open: the path as the client named it (with slashes), the local
      path it resolved to, and whether a durable handle was granted. */
  datatype Handle = Handle(remotePath: string, localPath: Path, durable: bool)

  datatype CreateRequest = CreateRequest(disposition: nat, name: string, contexts: seq<RequestContext>)

  datatype CreateResponse = CreateResponse(
    fileId: FileId,
    createAction: nat,
    info: CommonInfo,
    contexts: seq<ChainedContext>,
    contextsOffset: nat,
    contextsLength: nat)

  datatype CloseResponse = CloseResponse(flags: nat, info: CommonInfo)

  datatype QueryDirectoryRequest = QueryDirectoryRequest(
    fileId: FileId,
    infoClass: nat,
    pattern: string,
    returnSingle: bool,
    reopen: bool,
    restartScans: bool,
    outputLength: nat)

  /** A record of the response buffer: its information, its next-entry
      offset and the length it occupies once padded. */
  datatype DirRecord = DirRecord(info: DirInfo, nextOffset: nat, paddedLength: nat)

  datatype QueryDirectoryResponse = QueryDirectoryResponse(records: seq<DirRecord>, bufferLength: nat)

  datatype QueryInfoRequest = QueryInfoRequest(fileId: FileId, infoType: nat, infoClass: nat)

  datatype ReadRequest = ReadRequest(fileId: FileId, channel: nat, offset: nat, length: nat, minBytes: nat)

  datatype ReadResponse = ReadResponse(dataLength: nat, data: seq<byte>)

  // ---------------------------------------------------------------------
  // READ

  function Min(a: nat, b: nat): nat { if a <= b then a else b }

  /** Seek to `offset` and read up to `length` bytes. */
  function ReadAt(content: seq<byte>, offset: nat, length: nat): seq<byte>
  {
    if offset >= |content| then [] else content[offset..offset + Min(length, |content| - offset)]
  }

  /** The READ status rule: nothing read, or less than the client's
      minimum, is END_OF_FILE. */
  function ReadOutcome(content: seq<byte>, offset: nat, length: nat, minBytes: nat): Result<ReadResponse>
  {
    var data := ReadAt(content, offset, length);
    if |data| == 0 || |data| < minBytes then Err(EndOfFile)
    else Ok(ReadResponse(|data|, data))
  }

  /** A read succeeds exactly when the offset is inside the file, the
      length is positive and the bytes available reach the minimum; it
      then returns the bytes of the file from the offset on, as many as
      requested or as there are, and reports their number. */
  lemma ReadRule(content: seq<byte>, offset: nat, length: nat, minBytes: nat)
    ensures var r := ReadOutcome(content, offset, length, minBytes);
            && (r.Ok? <==> offset < |content| && length > 0 && Min(length, |content| - offset) >= minBytes)
            && (r.Err? ==> r.error == EndOfFile)
            && (r.Ok? ==> && r.value.dataLength == |r.value.data|
                          && 0 < |r.value.data| <= length
                          && |r.value.data| >= minBytes
                          && |r.value.data| == Min(length, |content| - offset)
                          && r.value.data == content[offset..offset + |r.value.data|])
  {
  }

  /** A 10-byte read of a 5-byte file returns its 5 bytes when the minimum
      is 1, and END_OF_FILE when the minimum is 6. */
  lemma ReadExamples(content: seq<byte>)
    requires |content| == 5
    ensures ReadOutcome(content, 0, 10, 1) == Ok(ReadResponse(5, content))
    ensures ReadOutcome(content, 0, 10, 6) == Err(EndOfFile)
  {
    assert content[0..5] == content;
  }

  // ---------------------------------------------------------------------
  // Response buffers

  /** The QUERY_DIRECTORY buffer: each record padded to 8 bytes, chained
      by next-entry offsets, the last offset 0. */
  function Layout(infos: seq<DirInfo>, size: DirInfo -> nat): QueryDirectoryResponse
  {
    var padded := PaddedSizes(infos, size);
    var offsets := Chain.NextOffsets(padded);
    QueryDirectoryResponse(
      seq(|infos|, i requires 0 <= i < |infos| => DirRecord(infos[i], offsets[i], padded[i])),
      Chain.Sum(padded))
  }

  /** The loop that assembles the buffer from the records of a pass. */
  method BuildBuffer(infos: seq<DirInfo>, size: DirInfo -> nat) returns (resp: QueryDirectoryResponse)
    requires infos != []
    ensures resp == Layout(infos, size)
  {
    var padded := PaddedSizes(infos, size);
    var records: seq<DirRecord> := [];
    var length: nat := 0;
    var k := 0;
    while k < |infos|
      invariant 0 <= k <= |infos| && |records| == k
      invariant records == Layout(infos, size).records[..k]
      invariant length == Chain.Sum(padded[..k])
    {
      var info := infos[k];
      var infoSize := Pad8(size(info));
      var next := if k == |infos| - 1 then 0 else infoSize;
      records := records + [DirRecord(info, next, infoSize)];
      assert padded[..k + 1] == padded[..k] + [padded[k]];
      Chain.SumSnoc(padded[..k], padded[k]);
      length := length + infoSize;
      k := k + 1;
    }
    assert records == Layout(infos, size).records;
    assert padded[..k] == padded;
    resp := QueryDirectoryResponse(records, length);
  }

  /** Every record starts on an 8-byte boundary, the buffer length is the
      sum of the padded sizes (a multiple of 8), every record but the last
      points to the next one, the last ends the chain, and a client that
      follows the offsets visits every record where it was laid out. */
  lemma LayoutProperties(infos: seq<DirInfo>, size: DirInfo -> nat)
    requires forall i :: 0 <= i < |infos| ==> size(infos[i]) > 0
    ensures var resp := Layout(infos, size);
            var padded := PaddedSizes(infos, size);
            && |resp.records| == |infos|
            && (forall i :: 0 <= i < |infos| ==> resp.records[i].info == infos[i])
            && (forall i :: 0 <= i < |infos| ==> resp.records[i].paddedLength % 8 == 0)
            && (forall i :: 0 <= i < |infos| - 1 ==> resp.records[i].nextOffset == Pad8(size(infos[i])))
            && (infos != [] ==> resp.records[|infos| - 1].nextOffset == 0)
            && resp.bufferLength % 8 == 0
            && (forall i :: 0 <= i < |infos| ==> Chain.Starts(padded)[i] % 8 == 0)
            && Chain.Walk(Chain.NextOffsets(padded), 0, 0) == Chain.Starts(padded)
  {
    var padded := PaddedSizes(infos, size);
    forall i | 0 <= i < |infos| ensures padded[i] % 8 == 0 && padded[i] > 0 {
      Pad8Properties(size(infos[i]));
    }
    Chain.AlignedSums(padded);
    Chain.WalkVisitsEveryEntry(padded);
  }

  /** The CREATE context chain: each answer with its next-context offset. */
  function Linked(rs: seq<ResponseContext>, size: ResponseContext -> nat): seq<ChainedContext>
  {
    var offsets := Chain.NextOffsets(ContextSizes(rs, size));
    seq(|rs|, i requires 0 <= i < |rs| => ChainedContext(rs[i], offsets[i]))
  }

  /** Followed from the first context, the offsets visit every answer in
      order; the block length is the sum of the context sizes. */
  lemma LinkedChain(rs: seq<ResponseContext>, size: ResponseContext -> nat)
    requires forall i :: 0 <= i < |rs| ==> size(rs[i]) > 0
    ensures var l := Linked(rs, size);
            && |l| == |rs|
            && (forall i :: 0 <= i < |rs| - 1 ==> l[i].nextOffset == size(rs[i]))
            && (rs != [] ==> l[|rs| - 1].nextOffset == 0)
            && Chain.Walk(seq(|l|, i requires 0 <= i < |l| => l[i].nextOffset), 0, 0) == Chain.Starts(ContextSizes(rs, size))
  {
    var l := Linked(rs, size);
    assert seq(|l|, i requires 0 <= i < |l| => l[i].nextOffset) == Chain.NextOffsets(ContextSizes(rs, size));
    Chain.WalkVisitsEveryEntry(ContextSizes(rs, size));
  }

  /** The enumeration loop of QUERY_DIRECTORY: walk the cursor, skip
      entries that vanished or do not match, stop before the first record
      that does not fit in the budget, or after one record in single mode.
      Returns the records and the cursor left for the next call. */
  method Scan(sc: Scope, ds: seq<Path>, budget: nat, single: bool, size: DirInfo -> nat)
    returns (infos: seq<DirInfo>, rest: seq<Path>)
    ensures (infos, rest) == Pass(sc, ds, budget, single, size)
  {
    var dirents := ds;
    infos := [];
    var total: nat := 0;
    assert infos + Pass(sc, dirents, budget - total, single, size).0 == Pass(sc, dirents, budget - total, single, size).0;
    while |dirents| > 0
      invariant total <= budget
      invariant single ==> infos == []
      invariant Pass(sc, ds, budget, single, size) ==
                (infos + Pass(sc, dirents, budget - total, single, size).0,
                 Pass(sc, dirents, budget - total, single, size).1)
      decreases |dirents|
    {
      ghost var here := dirents;
      ghost var before := infos;
      ghost var left := budget - total;
      var d := dirents[0];
      dirents := dirents[1..];
      if !Exists(sc.fs, d) {
        assert Pass(sc, here, left, single, size) == Pass(sc, dirents, left, single, size);
        continue;
      }
      var name := DisplayName(sc, d);
      if !Matches(sc.matcher, name) {
        assert Pass(sc, here, left, single, size) == Pass(sc, dirents, left, single, size);
        continue;
      }
      var info := BuildInfo(sc.cls, sc.fs[d], name);
      assert Candidate(sc, d) && info == InfoOf(sc, d);
      var infoSize := Pad8(size(info));
      if total + infoSize > budget {
        dirents := [d] + dirents;
        assert dirents == here;
        assert Pass(sc, here, left, single, size) == ([], here);
        assert infos + [] == infos;
        assert Pass(sc, ds, budget, single, size) == (infos, dirents);
        break;
      }
      infos := infos + [info];
      total := total + infoSize;
      if single {
        assert Pass(sc, here, left, single, size) == ([info], dirents);
        assert Pass(sc, ds, budget, single, size) == (infos, dirents);
        break;
      }
      assert Pass(sc, here, left, single, size) ==
             ([info] + Pass(sc, dirents, budget - total, single, size).0, Pass(sc, dirents, budget - total, single, size).1);
      assert before + ([info] + Pass(sc, dirents, budget - total, single, size).0)
          == infos + Pass(sc, dirents, budget - total, single, size).0;
    }
    assert Pass(sc, [], budget - total, single, size) == ([], []);
    assert infos + [] == infos;
    rest := dirents;
  }

  // ---------------------------------------------------------------------

  class Processor {
    /** The share root: an absolute path. */
    const root: Path
    /** The host filesystem, read-only for this processor. */
    const fs: FileSystem
    /** Open handles by file id. */
    var handles: map<FileId, Handle>
    /** Enumeration cursors by file id: the entries still to report. */
    var cursors: map<FileId, seq<Path>>

    /** Every open handle names an existing file or directory inside the
        share, under the slash form of the name the client gave. */
    ghost predicate Valid()
      reads this
    {
      forall id | id in handles ::
        && Exists(fs, handles[id].localPath)
        && Contained(root, handles[id].localPath)
        && '\\' !in handles[id].remotePath
    }

    constructor(root: Path, fs: FileSystem)
      ensures Valid()
      ensures this.root == root && this.fs == fs
      ensures handles == map[] && cursors == map[]
    {
      this.root := root;
      this.fs := fs;
      handles := map[];
      cursors := map[];
    }

    /** CLOSE: forget the handle; the enumeration cursor stays. */
    method Close(id: FileId) returns (r: Result<CloseResponse>)
      requires Valid()
      modifies this`handles
      ensures Valid()
      ensures handles == old(handles) - {id}
      ensures id !in old(handles) ==> r == Err(InvalidHandle)
      ensures id in old(handles) ==>
                r == Ok(CloseResponse(CLOSE_FLAG_POSTQUERY_ATTRIB, CommonInfoOf(fs[old(handles)[id].localPath])))
    {
      if id !in handles {
        return Err(InvalidHandle);
      }
      var localPath := handles[id].localPath;
      handles := handles - {id};
      r := Ok(CloseResponse(CLOSE_FLAG_POSTQUERY_ATTRIB, CommonInfoOf(fs[localPath])));
    }

    /** CREATE: open an existing file or directory under the given id. */
    method Create(req: CreateRequest, newId: FileId, ctxSize: ResponseContext -> nat) returns (r: Result<CreateResponse>)
      requires Valid()
      modifies this`handles
      ensures Valid()
      ensures r.Err? ==> handles == old(handles)
      ensures req.disposition != FILE_OPEN ==> r == Err(NotImplemented)
      ensures req.disposition == FILE_OPEN ==>
        var path := ToSlashes(req.name);
        var lp := Resolve(root, path);
        && (lp.Err? ==> r == Err(PathEscape))
        && (lp.Ok? && !Exists(fs, lp.value) ==> r == Err(ObjectNameNotFound))
        && (lp.Ok? && Exists(fs, lp.value) && HasConflict(req.contexts) ==> r == Err(InvalidParameter))
        && (lp.Ok? && Exists(fs, lp.value) && !HasConflict(req.contexts) ==>
              var granted := Granted(req.contexts, req.contexts, fs[lp.value].stat);
              && r == Ok(CreateResponse(newId, FILE_OPENED, CommonInfoOf(fs[lp.value]),
                                        Linked(granted, ctxSize),
                                        if granted == [] then 0 else CONTEXTS_BUFFER_OFFSET,
                                        if granted == [] then 0 else Chain.Sum(ContextSizes(granted, ctxSize))))
              && handles == old(handles)[newId := Handle(path, lp.value, GrantsDurable(granted))])
    {
      if req.disposition != FILE_OPEN {
        return Err(NotImplemented);
      }
      var path := ToSlashes(req.name);
      var lp := Resolve(root, path);
      if lp.Err? {
        return Err(PathEscape);
      }
      var localPath := lp.value;
      if !Exists(fs, localPath) {
        return Err(ObjectNameNotFound);
      }
      var node := fs[localPath];
      var negotiated := Negotiate(req.contexts, node.stat);
      if negotiated.Err? {
        return Err(negotiated.error);
      }
      var granted := negotiated.value.contexts;
      var linked := LinkContexts(granted, ctxSize);
      assert linked == Linked(granted, ctxSize);
      var offset, length;
      if |granted| > 0 {
        offset, length := CONTEXTS_BUFFER_OFFSET, Chain.Sum(ContextSizes(granted, ctxSize));
      } else {
        offset, length := 0, 0;
      }
      handles := handles[newId := Handle(path, localPath, negotiated.value.durable)];
      r := Ok(CreateResponse(newId, FILE_OPENED, CommonInfoOf(node), linked, offset, length));
    }

    /** The cursor a QUERY_DIRECTORY call starts from. */
    ghost function StartCursor(cs: map<FileId, seq<Path>>, req: QueryDirectoryRequest, dir: Path): seq<Path>
      requires IsDirectory(fs, dir)
    {
      if req.fileId !in cs || req.reopen || req.restartScans then InitialCursor(fs, dir) else cs[req.fileId]
    }

    /** QUERY_DIRECTORY: one pass over the handle's cursor. */
    method QueryDirectory(req: QueryDirectoryRequest, size: DirInfo -> nat) returns (r: Result<QueryDirectoryResponse>)
      requires Valid()
      modifies this`cursors
      ensures Valid()
      ensures DirClassOf(req.infoClass).Err? ==> r == Err(NotImplemented) && cursors == old(cursors)
      ensures DirClassOf(req.infoClass).Ok? && req.fileId !in handles ==>
                r == Err(InvalidHandle) && cursors == old(cursors)
      ensures DirClassOf(req.infoClass).Ok? && req.fileId in handles ==>
        var dir := handles[req.fileId].localPath;
        && (!IsDirectory(fs, dir) ==> r == Err(InvalidParameter) && cursors == old(cursors))
        && (IsDirectory(fs, dir) && Compile(req.pattern).Err? ==> r == Err(NotImplemented) && cursors == old(cursors))
        && (IsDirectory(fs, dir) && Compile(req.pattern).Ok? ==>
              var sc := Scope(fs, dir, Compile(req.pattern).value, DirClassOf(req.infoClass).value);
              var e := Pass(sc, StartCursor(old(cursors), req, dir), req.outputLength, req.returnSingle, size).0;
              var rest := Pass(sc, StartCursor(old(cursors), req, dir), req.outputLength, req.returnSingle, size).1;
              && cursors == old(cursors)[req.fileId := rest]
              && r == (if e == [] then Err(NoMoreFiles) else Ok(Layout(e, size))))
    {
      var cls := DirClassOf(req.infoClass);
      if cls.Err? {
        return Err(NotImplemented);
      }
      if req.fileId !in handles {
        return Err(InvalidHandle);
      }
      var dir := handles[req.fileId].localPath;
      if !IsDirectory(fs, dir) {
        return Err(InvalidParameter);
      }
      var matcher := Compile(req.pattern);
      if matcher.Err? {
        return Err(NotImplemented);
      }
      var sc := Scope(fs, dir, matcher.value, cls.value);
      var dirents: seq<Path>;
      if req.fileId !in cursors || req.reopen || req.restartScans {
        dirents := InitialCursor(fs, dir);
      } else {
        dirents := cursors[req.fileId];
      }
      var infos, rest := Scan(sc, dirents, req.outputLength, req.returnSingle, size);
      cursors := cursors[req.fileId := rest];
      if |infos| == 0 {
        return Err(NoMoreFiles);
      }
      var resp := BuildBuffer(infos, size);
      r := Ok(resp);
    }

    /** QUERY_INFO for the file information type. */
    function QueryInfo(req: QueryInfoRequest): (r: Result<FileInformation>)
      requires Valid()
      reads this
      ensures r.Ok? <==>
                req.infoType == SMB2_0_INFO_FILE &&
                (req.infoClass == FILE_EA_INFORMATION ||
                 ((req.infoClass == FILE_NETWORK_OPEN_INFORMATION || req.infoClass == FILE_NORMALIZED_NAME_INFORMATION)
                  && req.fileId in handles))
      ensures r.Err? ==> r.error == NotImplemented || r.error == InvalidHandle
      ensures r.Ok? && r.value.NetworkOpenInformation? ==>
                var a := r.value.common.attributes;
                a.normal != a.directory
      ensures r.Ok? && r.value.NormalizedNameInformation? ==>
                req.fileId in handles &&
                r.value.fileName == handles[req.fileId].remotePath && '\\' !in r.value.fileName
      ensures req.infoType == SMB2_0_INFO_FILE && req.infoClass == FILE_EA_INFORMATION ==> r == Ok(EaInformation)
      ensures req.infoType == SMB2_0_INFO_FILE && req.infoClass == FILE_NETWORK_OPEN_INFORMATION ==>
                if req.fileId in handles
                then r == Ok(NetworkOpenInformation(CommonInfoOf(fs[handles[req.fileId].localPath])))
                else r == Err(InvalidHandle)
      ensures req.infoType == SMB2_0_INFO_FILE && req.infoClass == FILE_NORMALIZED_NAME_INFORMATION ==>
                if req.fileId in handles
                then r == Ok(NormalizedNameInformation(handles[req.fileId].remotePath))
                else r == Err(InvalidHandle)
      ensures req.infoType != SMB2_0_INFO_FILE ==> r == Err(NotImplemented)
      ensures (req.infoClass != FILE_EA_INFORMATION && req.infoClass != FILE_NETWORK_OPEN_INFORMATION &&
               req.infoClass != FILE_NORMALIZED_NAME_INFORMATION) ==> r == Err(NotImplemented)
    {
      if req.infoType != SMB2_0_INFO_FILE then Err(NotImplemented)
      else if req.infoClass == FILE_EA_INFORMATION then Ok(EaInformation)
      else if req.infoClass == FILE_NETWORK_OPEN_INFORMATION then
        (if req.fileId !in handles then Err(InvalidHandle)
         else Ok(NetworkOpenInformation(CommonInfoOf(fs[handles[req.fileId].localPath]))))
      else if req.infoClass == FILE_NORMALIZED_NAME_INFORMATION then
        (if req.fileId !in handles then Err(InvalidHandle)
         else Ok(NormalizedNameInformation(handles[req.fileId].remotePath)))
      else Err(NotImplemented)
    }

    /** READ from an open regular file. */
    function Read(req: ReadRequest): (r: Result<ReadResponse>)
      requires Valid()
      reads this
      ensures req.channel != SMB2_CHANNEL_NONE ==> r == Err(NotImplemented)
      ensures req.channel == SMB2_CHANNEL_NONE && req.fileId !in handles ==> r == Err(InvalidHandle)
      ensures r.Ok? ==>
                req.fileId in handles &&
                var node := fs[handles[req.fileId].localPath];
                && node.File?
                && req.offset + |r.value.data| <= |node.content|
                && r.value.dataLength == |r.value.data|
                && |r.value.data| >= req.minBytes && 0 < |r.value.data| <= req.length
                && r.value.data == node.content[req.offset..req.offset + |r.value.data|]
      ensures req.channel == SMB2_CHANNEL_NONE && req.fileId in handles ==>
                var node := fs[handles[req.fileId].localPath];
                && (!node.File? ==> r == Err(FileSystemFault))
                && (node.File? ==>
                      && (r.Ok? <==> req.offset < |node.content| && req.length > 0
                                     && Min(req.length, |node.content| - req.offset) >= req.minBytes)
                      && (r.Err? ==> r.error == EndOfFile)
                      && (r.Ok? ==> |r.value.data| == Min(req.length, |node.content| - req.offset)))
    {
      if req.channel != SMB2_CHANNEL_NONE then Err(NotImplemented)
      else if req.fileId !in handles then Err(InvalidHandle)
      else
        var node := fs[handles[req.fileId].localPath];
        if !node.File? then Err(FileSystemFault)
        else
          ReadRule(node.content, req.offset, req.length, req.minBytes);
          ReadOutcome(node.content, req.offset, req.length, req.minBytes)
    }
  }

  /** A handle opened and then closed twice: the first CLOSE succeeds
      exactly when the open did, the second finds no handle, and the
      handle table is back where it started. */
  method OpenCloseClose(p: Processor, req: CreateRequest, newId: FileId, ctxSize: ResponseContext -> nat)
    returns (created: Result<CreateResponse>, first: Result<CloseResponse>, second: Result<CloseResponse>)
    requires p.Valid() && newId !in p.handles
    modifies p
    ensures p.Valid() && p.handles == old(p.handles)
    ensures first.Ok? <==> created.Ok?
    ensures second == Err(InvalidHandle)
  {
    created := p.Create(req, newId, ctxSize);
    first := p.Close(newId);
    second := p.Close(newId);
  }
}
