/** Which conversions each handler gets to, in order: what the counters count. */
module ConversionCalls {
  import opened Prelude
  import opened MagicBytes
  import opened RedisCrypto
  import opened Conversion
  import opened ConversionMetrics
  import opened RedisKeys
  import opened KeyspaceConfigs
  import opened Handlers

  /** The conversion a PUT gets to, if any. */
  function PutConversion<F>(s: Service<F>, req: PutRequest, rnd: Option<Nonce>): seq<Call> {
    if !Admits(s, req.keyspace, req.headers) || !req.body.Body? then []
    else
      var r := Record(FromHeaders(req.headers), req.body.data);
      if !ContentPasses(s, req.keyspace, r) then []
      else [Call(req.keyspace, r, s.keyspaces[req.keyspace].store, rnd)]
  }

  /** The conversion a stored value gets to when it is rendered, if any. */
  function RenderConversion<F>(s: Service<F>, ks: string, value: Bytes, format: string): seq<Call>
    requires ks in s.keyspaces
  {
    match (ParseResult(value), Target(s.keyspaces[ks], format))
    case (Some(r), Some(target)) => if format == "raw" then [] else [Call(ks, r, target, None)]
    case _ => []
  }

  function GetConversion<F>(s: Service<F>, redis: Redis, ks: string, id: string, format: string, up: bool)
    : seq<Call>
  {
    var key := RedisKey(ks, s.upper(id));
    if !up || ks !in s.keyspaces || s.keyspaces[ks].kind == KSAtomic || key !in redis then []
    else RenderConversion(s, ks, redis[key], format)
  }

  /** A PUT gets to its one conversion exactly when it is accepted or fails there, and what
      it prepares is that conversion's result. */
  lemma PutConverts<F>(s: Service<F>, req: PutRequest, rnd: Option<Nonce>)
    ensures var calls, prepared := PutConversion(s, req, rnd), PreparePut(s, req, rnd);
            && (calls == [] <==> prepared.Refuse? && prepared.status != 500)
            && (calls != [] ==>
                  var out := Conversion.Convert(s.codec, req.keyspace, calls[0].r, calls[0].dst, calls[0].rnd);
                  && |calls| == 1 && calls[0].ks == req.keyspace
                  && prepared == if out.Succeeded() then Accept(out.record) else Refuse(500))
  {
  }

  /** And so a stored value, when it is rendered. */
  lemma RenderConverts<F>(s: Service<F>, ks: string, value: Bytes, format: string)
    requires ks in s.keyspaces
    ensures var calls, reply := RenderConversion(s, ks, value, format), Render(s, ks, value, format);
            && (calls == [] <==> value == [] || format == "raw" || reply.status == 400)
            && (value == [] ==> reply.status == 500)
            && (calls != [] ==>
                  var out := Conversion.Convert(s.codec, ks, calls[0].r, calls[0].dst, None);
                  && |calls| == 1 && calls[0].ks == ks && calls[0].rnd == None
                  && (reply.status == 200 <==> out.Succeeded())
                  && (reply.status == 200 ==> reply.body == out.record.data))
  {
  }

  /** A GET converts exactly in a configured keyspace that is not atomic, when Redis has a
      value that is not empty, for a known format other than raw. */
  lemma GetConverts<F>(s: Service<F>, redis: Redis, ks: string, id: string, format: string, up: bool)
    ensures var calls, reply := GetConversion(s, redis, ks, id, format, up), Get(s, redis, ks, id, format, up);
            var key := ks + ":{" + s.upper(id) + "}";
            && (calls != [] <==>
                  && ks in s.keyspaces && s.keyspaces[ks].kind != KSAtomic && up
                  && key in redis && redis[key] != [] && format != "raw" && reply.status != 400)
            && (calls != [] ==>
                  var out := Conversion.Convert(s.codec, ks, calls[0].r, calls[0].dst, None);
                  |calls| == 1 && calls[0].ks == ks && (reply.status == 200 <==> out.Succeeded()))
  {
  }
}
