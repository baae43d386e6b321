/** CREATE context negotiation: which requested contexts are answered,
    which are refused together, which mark the handle durable, and how the
    answers are chained in the response. */
module Contexts {
  import opened Types
  import opened Metadata
  import Chain

  // Context names (four-character tags) the processor recognises.
  const DURABLE_HANDLE: string := "DHnQ"
  const DURABLE_HANDLE_RECONNECT: string := "DHnC"
  const DURABLE_HANDLE_V2: string := "DH2Q"
  const DURABLE_HANDLE_RECONNECT_V2: string := "DH2C"
  const QUERY_MAXIMAL_ACCESS: string := "MxAc"
  const QUERY_ON_DISK_ID: string := "QFid"

  /** The timeout granted with a version 2 durable handle. */
  const DURABLE_V2_TIMEOUT: nat := 1000

  /** Where the context block starts in a CREATE response: after the
      64-byte SMB2 header and the 88-byte fixed part of the response. */
  const CONTEXTS_BUFFER_OFFSET: nat := 152

  /** A requested context; `v2Flags` is the flags field of a version 2
      durable-handle request and is ignored for every other name. */
  datatype RequestContext = RequestContext(name: string, v2Flags: nat)

  datatype ResponseContext =
    | DurableGranted
    | DurableV2Granted(timeout: nat, flags: nat)
    | MaximalAccess(mask: nat)
    | OnDiskId(diskFileId: nat, volumeId: nat)

  function ResponseName(c: ResponseContext): string
  {
    match c
    case DurableGranted => DURABLE_HANDLE
    case DurableV2Granted(_, _) => DURABLE_HANDLE_V2
    case MaximalAccess(_) => QUERY_MAXIMAL_ACCESS
    case OnDiskId(_, _) => QUERY_ON_DISK_ID
  }

  predicate Has(all: seq<RequestContext>, name: string)
  {
    exists i :: 0 <= i < |all| && all[i].name == name
  }

  /** The request `all` makes this context of it a conflict. */
  predicate ConflictsAt(all: seq<RequestContext>, c: RequestContext)
  {
    || (c.name == DURABLE_HANDLE && !Has(all, DURABLE_HANDLE_RECONNECT)
        && (Has(all, DURABLE_HANDLE_V2) || Has(all, DURABLE_HANDLE_RECONNECT_V2)))
    || (c.name == DURABLE_HANDLE_V2
        && (Has(all, DURABLE_HANDLE) || Has(all, DURABLE_HANDLE_RECONNECT) || Has(all, DURABLE_HANDLE_RECONNECT_V2)))
  }

  predicate HasConflict(all: seq<RequestContext>)
  {
    exists i :: 0 <= i < |all| && ConflictsAt(all, all[i])
  }

  /** The answer to one requested context of `all`, if any: a version 1
      durable request is skipped when a reconnect is also requested, and
      unknown names are skipped. */
  function Respond(all: seq<RequestContext>, c: RequestContext, stat: Stat): Option<ResponseContext>
  {
    if c.name == DURABLE_HANDLE then
      (if Has(all, DURABLE_HANDLE_RECONNECT) then None else Some(DurableGranted))
    else if c.name == DURABLE_HANDLE_V2 then Some(DurableV2Granted(DURABLE_V2_TIMEOUT, c.v2Flags))
    else if c.name == QUERY_MAXIMAL_ACCESS then Some(MaximalAccess(MAXIMAL_ACCESS))
    else if c.name == QUERY_ON_DISK_ID then Some(OnDiskId(stat.ino, stat.dev))
    else None
  }

  /** The answers to the contexts `cs` of the request `all`, in order. */
  function Granted(all: seq<RequestContext>, cs: seq<RequestContext>, stat: Stat): seq<ResponseContext>
  {
    if cs == [] then []
    else
      Granted(all, cs[..|cs| - 1], stat)
      + (match Respond(all, cs[|cs| - 1], stat) case Some(r) => [r] case None => [])
  }

  predicate GrantsDurable(rs: seq<ResponseContext>)
  {
    exists i :: 0 <= i < |rs| && (rs[i].DurableGranted? || rs[i].DurableV2Granted?)
  }

  lemma GrantsDurableSnoc(rs: seq<ResponseContext>, x: ResponseContext)
    ensures GrantsDurable(rs + [x]) <==> GrantsDurable(rs) || x.DurableGranted? || x.DurableV2Granted?
  {
    if GrantsDurable(rs) {
      var i :| 0 <= i < |rs| && (rs[i].DurableGranted? || rs[i].DurableV2Granted?);
      assert (rs + [x])[i] == rs[i];
    }
    if x.DurableGranted? || x.DurableV2Granted? {
      assert (rs + [x])[|rs|] == x;
    }
    if GrantsDurable(rs + [x]) {
      var i :| 0 <= i < |rs + [x]| && ((rs + [x])[i].DurableGranted? || (rs + [x])[i].DurableV2Granted?);
      if i < |rs| { assert (rs + [x])[i] == rs[i]; }
    }
  }

  datatype Negotiated = Negotiated(contexts: seq<ResponseContext>, durable: bool)

  /** The context loop of CREATE: answer each requested context in turn,
      or refuse the whole request with STATUS_INVALID_PARAMETER at the
      first conflicting one. */
  method Negotiate(all: seq<RequestContext>, stat: Stat) returns (r: Result<Negotiated>)
    ensures HasConflict(all) ==> r == Err(InvalidParameter)
    ensures !HasConflict(all) ==>
              r == Ok(Negotiated(Granted(all, all, stat), GrantsDurable(Granted(all, all, stat))))
  {
    var contexts: seq<ResponseContext> := [];
    var durable := false;
    var i := 0;
    while i < |all|
      invariant 0 <= i <= |all|
      invariant contexts == Granted(all, all[..i], stat)
      invariant durable == GrantsDurable(contexts)
      invariant forall j :: 0 <= j < i ==> !ConflictsAt(all, all[j])
    {
      var c := all[i];
      assert all[..i + 1][..i] == all[..i];
      if c.name == DURABLE_HANDLE {
        if Has(all, DURABLE_HANDLE_RECONNECT) {
          i := i + 1;
          continue;
        }
        if Has(all, DURABLE_HANDLE_V2) || Has(all, DURABLE_HANDLE_RECONNECT_V2) {
          return Err(InvalidParameter);
        }
        durable := true;
        GrantsDurableSnoc(contexts, DurableGranted);
        contexts := contexts + [DurableGranted];
      } else if c.name == DURABLE_HANDLE_V2 {
        if Has(all, DURABLE_HANDLE) || Has(all, DURABLE_HANDLE_RECONNECT) || Has(all, DURABLE_HANDLE_RECONNECT_V2) {
          return Err(InvalidParameter);
        }
        durable := true;
        GrantsDurableSnoc(contexts, DurableV2Granted(DURABLE_V2_TIMEOUT, c.v2Flags));
        contexts := contexts + [DurableV2Granted(DURABLE_V2_TIMEOUT, c.v2Flags)];
      } else if c.name == QUERY_MAXIMAL_ACCESS {
        GrantsDurableSnoc(contexts, MaximalAccess(MAXIMAL_ACCESS));
        contexts := contexts + [MaximalAccess(MAXIMAL_ACCESS)];
      } else if c.name == QUERY_ON_DISK_ID {
        GrantsDurableSnoc(contexts, OnDiskId(stat.ino, stat.dev));
        contexts := contexts + [OnDiskId(stat.ino, stat.dev)];
      }
      i := i + 1;
    }
    assert all[..i] == all;
    return Ok(Negotiated(contexts, durable));
  }

  // ---------------------------------------------------------------------

  /** The conflict rule in closed form: a version 1 durable request clashes
      with any version 2 context unless a version 1 reconnect is present,
      and a version 2 durable request clashes with any other durable context. */
  lemma ConflictRule(all: seq<RequestContext>)
    ensures HasConflict(all) <==>
      || (Has(all, DURABLE_HANDLE) && !Has(all, DURABLE_HANDLE_RECONNECT)
          && (Has(all, DURABLE_HANDLE_V2) || Has(all, DURABLE_HANDLE_RECONNECT_V2)))
      || (Has(all, DURABLE_HANDLE_V2)
          && (Has(all, DURABLE_HANDLE) || Has(all, DURABLE_HANDLE_RECONNECT) || Has(all, DURABLE_HANDLE_RECONNECT_V2)))
  {
  }

  /** A requested context whose answer would be a durable grant. */
  predicate DurableRequest(all: seq<RequestContext>, c: RequestContext)
  {
    (c.name == DURABLE_HANDLE && !Has(all, DURABLE_HANDLE_RECONNECT)) || c.name == DURABLE_HANDLE_V2
  }

  lemma GrantsDurableConcat(g: seq<ResponseContext>, last: seq<ResponseContext>)
    ensures GrantsDurable(g + last) <==> GrantsDurable(g) || GrantsDurable(last)
  {
    if GrantsDurable(g + last) {
      var i :| 0 <= i < |g + last| && ((g + last)[i].DurableGranted? || (g + last)[i].DurableV2Granted?);
      if i >= |g| { assert last[i - |g|] == (g + last)[i]; }
    }
    if GrantsDurable(last) {
      var i :| 0 <= i < |last| && (last[i].DurableGranted? || last[i].DurableV2Granted?);
      assert (g + last)[|g| + i] == last[i];
    }
    if GrantsDurable(g) {
      var i :| 0 <= i < |g| && (g[i].DurableGranted? || g[i].DurableV2Granted?);
      assert (g + last)[i] == g[i];
    }
  }

  lemma {:induction false} GrantedDurable(all: seq<RequestContext>, cs: seq<RequestContext>, stat: Stat)
    ensures GrantsDurable(Granted(all, cs, stat)) <==> exists i :: 0 <= i < |cs| && DurableRequest(all, cs[i])
  {
    if cs != [] {
      var n := |cs| - 1;
      var init := cs[..n];
      GrantedDurable(all, init, stat);
      var g := Granted(all, init, stat);
      var last := match Respond(all, cs[n], stat) case Some(r) => [r] case None => [];
      assert Granted(all, cs, stat) == g + last;
      GrantsDurableConcat(g, last);
      assert GrantsDurable(last) <==> DurableRequest(all, cs[n]) by {
        if GrantsDurable(last) {
          var i :| 0 <= i < |last| && (last[i].DurableGranted? || last[i].DurableV2Granted?);
        }
        if DurableRequest(all, cs[n]) {
          assert last[0].DurableGranted? || last[0].DurableV2Granted?;
        }
      }
      if exists i :: 0 <= i < |cs| && DurableRequest(all, cs[i]) {
        var i :| 0 <= i < |cs| && DurableRequest(all, cs[i]);
        if i < n { assert init[i] == cs[i]; }
      }
      if exists i :: 0 <= i < |init| && DurableRequest(all, init[i]) {
        var i :| 0 <= i < |init| && DurableRequest(all, init[i]);
        assert cs[i] == init[i];
      }
    }
  }

  /** Without a conflict, the handle is durable exactly when a version 1
      durable request without reconnect, or a version 2 durable request,
      was made. */
  lemma DurableRule(all: seq<RequestContext>, stat: Stat)
    ensures GrantsDurable(Granted(all, all, stat)) <==>
              (Has(all, DURABLE_HANDLE) && !Has(all, DURABLE_HANDLE_RECONNECT)) || Has(all, DURABLE_HANDLE_V2)
  {
    GrantedDurable(all, all, stat);
  }

  /** Durable handle requests of both versions in one CREATE conflict. */
  lemma BothVersionsConflict(all: seq<RequestContext>)
    requires Has(all, DURABLE_HANDLE) && Has(all, DURABLE_HANDLE_V2)
    ensures HasConflict(all)
  {
    ConflictRule(all);
  }

  lemma {:induction false} NoDurableGrantedWithReconnect(all: seq<RequestContext>, cs: seq<RequestContext>, stat: Stat)
    requires Has(all, DURABLE_HANDLE_RECONNECT)
    ensures forall i :: 0 <= i < |Granted(all, cs, stat)| ==> !Granted(all, cs, stat)[i].DurableGranted?
  {
    if cs != [] {
      NoDurableGrantedWithReconnect(all, cs[..|cs| - 1], stat);
    }
  }

  /** A version 1 durable request next to its reconnect, without version 2
      contexts, is skipped silently: no refusal and no version 1 answer. */
  lemma DurableWithReconnectSkipped(all: seq<RequestContext>, stat: Stat)
    requires Has(all, DURABLE_HANDLE_RECONNECT)
    requires !Has(all, DURABLE_HANDLE_V2)
    ensures !HasConflict(all)
    ensures forall i :: 0 <= i < |Granted(all, all, stat)| ==> !Granted(all, all, stat)[i].DurableGranted?
  {
    ConflictRule(all);
    NoDurableGrantedWithReconnect(all, all, stat);
  }

  /** Every answer is to a context of a recognised name, and has the name
      of what was asked (a version 1 or 2 durable request, a maximal-access
      or an on-disk id query), in request order. */
  lemma {:induction false} AnswersFollowRequests(all: seq<RequestContext>, cs: seq<RequestContext>, stat: Stat)
    ensures |Granted(all, cs, stat)| <= |cs|
    ensures forall k :: 0 <= k < |Granted(all, cs, stat)| ==>
              exists i :: 0 <= i < |cs| && ResponseName(Granted(all, cs, stat)[k]) == cs[i].name
  {
    if cs != [] {
      var init := cs[..|cs| - 1];
      AnswersFollowRequests(all, init, stat);
      var g := Granted(all, cs, stat);
      forall k | 0 <= k < |g|
        ensures exists i :: 0 <= i < |cs| && ResponseName(g[k]) == cs[i].name
      {
        if k < |Granted(all, init, stat)| {
          var i :| 0 <= i < |init| && ResponseName(Granted(all, init, stat)[k]) == init[i].name;
          assert cs[i] == init[i];
        } else {
          assert ResponseName(g[k]) == cs[|cs| - 1].name;
        }
      }
    }
  }

  /** A context response with its next-context offset. */
  datatype ChainedContext = ChainedContext(context: ResponseContext, nextOffset: nat)

  function ContextSizes(rs: seq<ResponseContext>, size: ResponseContext -> nat): (s: seq<nat>)
    ensures |s| == |rs| && forall i :: 0 <= i < |rs| ==> s[i] == size(rs[i])
  {
    seq(|rs|, i requires 0 <= i < |rs| => size(rs[i]))
  }

  /** The offset fix-up of CREATE: every context but the last points past
      itself, the last ends the chain. */
  method LinkContexts(rs: seq<ResponseContext>, size: ResponseContext -> nat) returns (chained: seq<ChainedContext>)
    ensures |chained| == |rs|
    ensures forall i :: 0 <= i < |rs| ==> chained[i].context == rs[i]
    ensures forall i :: 0 <= i < |rs| ==> chained[i].nextOffset == Chain.NextOffsets(ContextSizes(rs, size))[i]
  {
    chained := [];
    var i := 0;
    while i < |rs|
      invariant 0 <= i <= |rs| && |chained| == i
      invariant forall k :: 0 <= k < i ==> chained[k].context == rs[k]
      invariant forall k :: 0 <= k < i ==> chained[k].nextOffset == Chain.NextOffsets(ContextSizes(rs, size))[k]
    {
      var off := if i == |rs| - 1 then 0 else size(rs[i]);
      chained := chained + [ChainedContext(rs[i], off)];
      i := i + 1;
    }
  }
}
