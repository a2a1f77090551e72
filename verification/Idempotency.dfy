// internal/adapter/http/middleware/idempotency.go and internal/adapter/postgres/idempotency_store.go:
// the response store, the writer that captures what a handler sends, and the middleware.
module Idempotency {
  import opened Common

  type Bytes = seq<bv8>

  datatype Key = Key(tenant: Uuid, key: string)
  datatype Response = Response(status: int, body: Bytes)
  datatype Row = Row(response: Response, expires: Time)

  // expires_at DEFAULT now() + INTERVAL '24 hours'
  const TTL: int := 24 * 3600 * SECOND

  // ---- What the store's statements do ----

  // SELECT ... WHERE ... AND expires_at > now()
  function Found(rows: map<Key, Row>, key: Key, now: Time): Option<Response> {
    if key in rows && rows[key].expires > now then Some(rows[key].response) else None
  }

  // INSERT ... ON CONFLICT (tenant_id, key) DO NOTHING: a row that has expired still conflicts.
  function Stored(rows: map<Key, Row>, key: Key, response: Response, now: Time): map<Key, Row> {
    if key in rows then rows else rows[key := Row(response, now + TTL)]
  }

  // DELETE ... WHERE expires_at <= now()
  function Unexpired(rows: map<Key, Row>, now: Time): map<Key, Row> {
    map k | k in rows && rows[k].expires > now :: rows[k]
  }

  class IdempotencyStore {
    var rows: map<Key, Row>

    constructor ()
      ensures rows == map[]
    {
      rows := map[];
    }

    method Get(key: Key, now: Time, ok: bool) returns (r: Result<Option<Response>, Error>)
      ensures !ok ==> r == Err(ErrInternal)
      ensures ok && key in rows && rows[key].expires > now ==> r == Ok(Some(rows[key].response))
      ensures ok && !(key in rows && rows[key].expires > now) ==> r == Ok(None)
    {
      if !ok {
        return Err(ErrInternal);
      }
      if key in rows && rows[key].expires > now {
        return Ok(Some(rows[key].response));
      }
      return Ok(None);
    }

    method Set(key: Key, response: Response, now: Time, ok: bool) returns (error: Option<Error>)
      modifies this
      ensures rows == if ok && key !in old(rows) then old(rows)[key := Row(response, now + 86_400 * SECOND)]
                      else old(rows)
      ensures error.None? <==> ok
    {
      if !ok {
        return Some(ErrInternal);
      }
      if key !in rows {
        rows := rows[key := Row(response, now + TTL)];
      }
      return None;
    }

    method Cleanup(now: Time) returns (removed: nat)
      modifies this
      ensures rows == Unexpired(old(rows), now)
      ensures forall k :: k in rows <==> k in old(rows) && old(rows)[k].expires > now
      ensures forall k :: k in rows ==> rows[k] == old(rows)[k]
      ensures removed == |old(rows)| - |rows|
    {
      ghost var before := rows;
      var dead := set k | k in rows && rows[k].expires <= now;
      removed := |dead|;
      rows := rows - dead;
      assert rows == Unexpired(before, now);
      assert rows.Keys + dead == before.Keys && rows.Keys !! dead;
      assert |rows.Keys| + |dead| == |before.Keys|;
    }
  }

  // ---- Writers ----

  // What a handler does to its http.ResponseWriter.
  datatype Write = Header(code: int) | Body(bytes: Bytes)

  // The status net/http sends: the first WriteHeader's, or 200 if the body comes first or nothing does.
  function SentStatus(script: seq<Write>): int {
    if |script| > 0 && script[0].Header? then script[0].code else 200
  }

  // The last WriteHeader's code, or the zero value.
  function CapturedStatus(script: seq<Write>): int {
    if |script| == 0 then 0
    else match script[|script| - 1]
      case Header(code) => code
      case Body(_) => CapturedStatus(script[..|script| - 1])
  }

  function AllBytes(script: seq<Write>): Bytes {
    if |script| == 0 then []
    else
      AllBytes(script[..|script| - 1]) + match script[|script| - 1] case Header(_) => [] case Body(bytes) => bytes
  }

  function Sent(script: seq<Write>): Response {
    Response(SentStatus(script), AllBytes(script))
  }

  function Captured(script: seq<Write>): Response {
    Response(CapturedStatus(script), AllBytes(script))
  }

  // Only 2xx responses are cached.
  predicate Cacheable(r: Response) {
    200 <= r.status < 300
  }

  // The header is written once, and first.
  predicate HeaderFirst(script: seq<Write>) {
    && |script| > 0 && script[0].Header?
    && forall i :: 1 <= i < |script| ==> script[i].Body?
  }

  // The header written last, if there is one, has the code the client was sent: the first item's,
  // or 200 if the first item is a body.
  ghost predicate LastHeaderWasSent(script: seq<Write>) {
    exists i :: 0 <= i < |script| && IsLastHeader(script, i)
                && script[i].code == if script[0].Header? then script[0].code else 200
  }

  predicate IsLastHeader(script: seq<Write>, i: nat)
    requires i < |script|
  {
    script[i].Header? && forall j :: i < j < |script| ==> script[j].Body?
  }

  predicate NoHeader(script: seq<Write>) {
    forall i :: 0 <= i < |script| ==> script[i].Body?
  }

  // The wrapper records the code of the last header, and nothing if there is none.
  lemma {:induction false} CapturesLastHeader(script: seq<Write>)
    ensures NoHeader(script) ==> CapturedStatus(script) == 0
    ensures forall i :: 0 <= i < |script| && IsLastHeader(script, i) ==> CapturedStatus(script) == script[i].code
    ensures NoHeader(script) || exists i :: 0 <= i < |script| && IsLastHeader(script, i)
  {
    if |script| > 0 {
      var n := |script| - 1;
      var init := script[..n];
      CapturesLastHeader(init);
      if script[n].Header? {
        assert IsLastHeader(script, n);
      } else {
        assert forall i :: 0 <= i < n ==> (IsLastHeader(script, i) <==> IsLastHeader(init, i));
        assert NoHeader(script) <==> NoHeader(init);
      }
    }
  }

  // What is captured is what was sent exactly when the last header repeats what went out; a handler
  // that writes one header, first, is such a one. One that writes none answers 200 and is never cached.
  lemma CapturedIsSent(script: seq<Write>)
    ensures Captured(script) == Sent(script) <==> LastHeaderWasSent(script)
    ensures HeaderFirst(script) ==> LastHeaderWasSent(script)
    ensures NoHeader(script) ==> Sent(script).status == 200 && Captured(script).status == 0
  {
    CapturesLastHeader(script);
    if HeaderFirst(script) {
      assert IsLastHeader(script, 0);
    }
    if !NoHeader(script) {
      var i :| 0 <= i < |script| && IsLastHeader(script, i);
      assert forall j :: 0 <= j < |script| && IsLastHeader(script, j) ==> j == i;
    }
  }

  // A body before the header: 200 goes out, and the later code is captured, and cached if it is a 2xx.
  lemma BodyBeforeHeader(bytes: Bytes, code: int)
    requires code != 200
    ensures var script := [Body(bytes), Header(code)];
            && Sent(script) == Response(200, bytes)
            && Captured(script) == Response(code, bytes)
            && !LastHeaderWasSent(script)
  {
    var script := [Body(bytes), Header(code)];
    assert script[..1] == [Body(bytes)] && script[..1][..0] == [];
    assert AllBytes([Body(bytes)]) == [] + bytes;
    CapturedIsSent(script);
  }

  function Bodies(chunks: seq<Bytes>): seq<Write> {
    seq(|chunks|, i requires 0 <= i < |chunks| => Body(chunks[i]))
  }

  // What writeJSON and writeError of internal/adapter/http/handler/response.go can do to the writer: a
  // status, the encoder's output, and, when writeJSON's encoder fails, http.Error's 500 and its text.
  function Reply(status: int, chunks: seq<Bytes>, failure: Option<Bytes>): seq<Write> {
    [Header(status)] + Bodies(chunks) + match failure case None => [] case Some(text) => [Header(500), Body(text)]
  }

  // Such a reply is cached only if it is what was sent; after the fallback the client has the first
  // status, 500 is captured, and nothing is cached.
  lemma RepliesAreCachedAsSent(status: int, chunks: seq<Bytes>, failure: Option<Bytes>)
    ensures var script := Reply(status, chunks, failure);
            && Sent(script).status == status
            && Captured(script).status == (if failure.None? then status else 500)
            && (Captured(script) == Sent(script) <==> failure.None? || status == 500)
            && (200 <= Captured(script).status <= 299 ==> Captured(script) == Sent(script))
  {
    var script := Reply(status, chunks, failure);
    var last := if failure.None? then 0 else |chunks| + 1;
    assert script[0] == Header(status);
    assert IsLastHeader(script, last);
    CapturesLastHeader(script);
  }

  ghost predicate IsReply(script: seq<Write>) {
    exists status, chunks, failure :: script == Reply(status, chunks, failure)
  }

  // The server's own writer. status is 0 until the header is out.
  class ResponseWriter {
    var status: int
    var body: Bytes
    var wroteHeader: bool

    constructor ()
      ensures !wroteHeader && body == []
    {
      status, body, wroteHeader := 0, [], false;
    }

    // What the client has after the handler's calls so far.
    ghost predicate Holds(script: seq<Write>)
      reads this
    {
      && body == AllBytes(script)
      && (wroteHeader <==> |script| > 0)
      && (wroteHeader ==> status == SentStatus(script))
    }

    function Answer(): Response
      reads this
    {
      Response(if wroteHeader then status else 200, body)
    }

    method WriteHeader(code: int)
      modifies this
      ensures wroteHeader && body == old(body)
      ensures status == if old(wroteHeader) then old(status) else code
    {
      if !wroteHeader {
        status := code;
        wroteHeader := true;
      }
    }

    method Write(bytes: Bytes)
      modifies this
      ensures wroteHeader && body == old(body) + bytes
      ensures status == if old(wroteHeader) then old(status) else 200
    {
      if !wroteHeader {
        status := 200;
        wroteHeader := true;
      }
      body := body + bytes;
    }
  }

  class CapturingWriter {
    const writer: ResponseWriter
    var statusCode: int
    var body: Bytes

    constructor (writer: ResponseWriter)
      ensures this.writer == writer && statusCode == 0 && body == []
    {
      this.writer := writer;
      statusCode, body := 0, [];
    }

    method WriteHeader(code: int)
      modifies this, writer
      ensures statusCode == code && body == old(body)
      ensures writer.wroteHeader && writer.body == old(writer.body)
      ensures writer.status == if old(writer.wroteHeader) then old(writer.status) else code
    {
      statusCode := code;
      writer.WriteHeader(code);
    }

    method Write(bytes: Bytes)
      modifies this, writer
      ensures statusCode == old(statusCode) && body == old(body) + bytes
      ensures writer.wroteHeader && writer.body == old(writer.body) + bytes
      ensures writer.status == if old(writer.wroteHeader) then old(writer.status) else 200
    {
      body := body + bytes;
      writer.Write(bytes);
    }
  }

  lemma ScriptSnoc(script: seq<Write>, i: nat)
    requires i < |script|
    ensures AllBytes(script[..i + 1])
            == AllBytes(script[..i]) + match script[i] case Header(_) => [] case Body(bytes) => bytes
    ensures CapturedStatus(script[..i + 1])
            == match script[i] case Header(code) => code case Body(_) => CapturedStatus(script[..i])
    ensures SentStatus(script[..i + 1])
            == if i > 0 then SentStatus(script[..i]) else match script[i] case Header(code) => code case Body(_) => 200
  {
    assert script[..i + 1][..i] == script[..i];
  }

  // The handler runs against the plain writer.
  method ServePlain(w: ResponseWriter, script: seq<Write>)
    requires w.Holds([])
    modifies w
    ensures w.Answer() == Sent(script)
  {
    for i := 0 to |script|
      invariant w.Holds(script[..i])
    {
      ScriptSnoc(script, i);
      match script[i]
      case Header(code) => w.WriteHeader(code);
      case Body(bytes) => w.Write(bytes);
    }
    assert script[..|script|] == script;
  }

  // The same through a capturing writer.
  method ServeCaptured(cw: CapturingWriter, script: seq<Write>)
    requires cw.writer.Holds([]) && cw.statusCode == 0 && cw.body == []
    modifies cw, cw.writer
    ensures cw.writer.Answer() == Sent(script)
    ensures Response(cw.statusCode, cw.body) == Captured(script)
  {
    for i := 0 to |script|
      invariant cw.writer.Holds(script[..i])
      invariant Response(cw.statusCode, cw.body) == Captured(script[..i])
    {
      ScriptSnoc(script, i);
      match script[i]
      case Header(code) => cw.WriteHeader(code);
      case Body(bytes) => cw.Write(bytes);
    }
    assert script[..|script|] == script;
  }

  // ---- The middleware ----

  // One request, served between no others: what the client gets, whether the handler ran, and the
  // store afterwards.
  method Serve(store: IdempotencyStore, w: ResponseWriter, tenant: Uuid, header: string, script: seq<Write>,
               getAt: Time, setAt: Time, getOk: bool, setOk: bool)
    returns (handled: bool)
    requires w.Holds([])
    modifies store, w
    // An unexpired row of the key answers the request, if it can be read;
    ensures var key := Key(tenant, header);
            var hit := header != "" && getOk && key in old(store.rows) && old(store.rows)[key].expires > getAt;
            && handled == !hit
            && w.Answer() == (if hit then old(store.rows)[key].response else Sent(script))
    // otherwise the handler does, and a response captured with status 200 to 299 is stored for a day,
    // unless the key has a row or the Set fails. Nothing else is stored.
    ensures var key := Key(tenant, header);
            store.rows == if handled && header != "" && getOk && setOk && key !in old(store.rows)
                             && 200 <= Captured(script).status <= 299
                          then old(store.rows)[key := Row(Captured(script), setAt + 86_400 * SECOND)]
                          else old(store.rows)
  {
    if header == "" {
      ServePlain(w, script);
      return true;
    }
    var key := Key(tenant, header);
    var cached := store.Get(key, getAt, getOk);
    if cached.Err? {
      ServePlain(w, script);
      return true;
    }
    if cached.value.Some? {
      w.WriteHeader(cached.value.value.status);
      w.Write(cached.value.value.body);
      return false;
    }
    var cw := new CapturingWriter(w);
    ServeCaptured(cw, script);
    if cw.statusCode >= 200 && cw.statusCode < 300 {
      var _ := store.Set(key, Response(cw.statusCode, cw.body), setAt, setOk);
    }
    return true;
  }
}
