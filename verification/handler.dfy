/** The `/api/t` handler (src/worker.js:168-237): validation, payload
    construction, the five-way fan-out and the keyed merge of results.
    The module globals, the URL parser and the backend are inputs. */
module Handler {
  import opened Wrappers
  import Rewrite
  import FileName
  import opened Credentials

  /** The module globals `STATIC_TOKEN`, `STATIC_U`, `STATIC_V`
      (src/worker.js:14-16); absent stands for `null`. */
  datatype StaticParams = StaticParams(token: Option<string>, u: Option<string>, v: Option<nat>)

  const Uninitialized: StaticParams := StaticParams(None, None, None)

  /** What startup leaves in the globals, given the script's text or a
      read failure (src/worker.js:43-59). */
  function Initialize(script: Option<string>): (p: StaticParams)
    ensures script.None? ==> p == Uninitialized
    ensures p == Uninitialized
            || (&& p.token.Some? && p.u.Some? && p.v.Some? && script.Some?
                && ExtractStaticParameters(script.value) == Some(Credentials(p.token.value, p.u.value, p.v.value)))
  {
    match script
    case None => Uninitialized
    case Some(text) =>
      match ExtractStaticParameters(text)
      case None => Uninitialized
      case Some(c) => StaticParams(Some(c.token), Some(c.u), Some(c.v))
  }

  /** JavaScript truthiness of a string that may be null. */
  predicate Truthy(s: Option<string>) {
    s.Some? && s.value != ""
  }

  /** The credentials the handler may use, or None when the globals fail
      the check `!STATIC_TOKEN || !STATIC_U || STATIC_V === null`. */
  function Configured(p: StaticParams): (r: Option<Credentials>)
    ensures r.Some? ==> && p.token == Some(r.value.token) && p.u == Some(r.value.u) && p.v == Some(r.value.v)
                        && r.value.token != "" && r.value.u != ""
    ensures r.Some? <==> Truthy(p.token) && Truthy(p.u) && p.v.Some?
    ensures Truthy(p.token) && Truthy(p.u) && p.v == Some(0) ==> r.Some?
  {
    if !Truthy(p.token) || !Truthy(p.u) || p.v.None? then None
    else Some(Credentials(p.token.value, p.u.value, p.v.value))
  }

  /** The five payload variants, in `Object.entries` order. */
  datatype Variant = Direct | Gdrive | Second | Pix | Nc

  const Variants: seq<Variant> := [Direct, Gdrive, Second, Pix, Nc]

  const ResultKeys: set<string> := {"direct", "gdrive", "second", "pix", "nc"}

  /** The key under which a variant's result is reported. */
  function Key(v: Variant): (k: string)
    ensures k in ResultKeys
  {
    match v
    case Direct => "direct"
    case Gdrive => "gdrive"
    case Second => "second"
    case Pix => "pix"
    case Nc => "nc"
  }

  /** The flags a variant sets to `true` (src/worker.js:185-191). */
  function Flags(v: Variant): set<string> {
    match v
    case Direct => {"direct"}
    case Gdrive => {"gdrive"}
    case Second => {"gdrive", "second"}
    case Pix => {"pix"}
    case Nc => {"pix", "nc"}
  }

  /** JSON values a payload holds. */
  datatype Json = JNum(n: nat) | JStr(s: string) | JBool(b: bool)

  const BaseFields: set<string> := {"v", "u", "file", "token"}

  /** `{ v, u, file, token, ...flags }`: the spread adds the variant's
      flags to the four static fields. */
  function Payload(c: Credentials, file: string, v: Variant): (body: map<string, Json>)
    ensures body.Keys == BaseFields + Flags(v)
    ensures body["v"] == JNum(c.v) && body["u"] == JStr(c.u)
    ensures body["file"] == JStr(file) && body["token"] == JStr(c.token)
    ensures forall k :: k in Flags(v) ==> body[k] == JBool(true)
  {
    map["v" := JNum(c.v), "u" := JStr(c.u), "file" := JStr(file), "token" := JStr(c.token)]
      + map k | k in Flags(v) :: JBool(true)
  }

  /** One POST to the backend: endpoint, `Referer` header and body. */
  datatype Call = Call(target: string, referer: string, payload: map<string, Json>)

  /** What the backend call came to: it threw (network error, non-2xx
      status, unparsable body), or it answered with a record whose `url`
      and `mega` fields may be missing. */
  datatype Reply = Failed | Answered(url: Option<string>, mega: Option<string>)

  /** `data.url || data.mega || null`, with a throwing call as null. */
  function Resolve(reply: Reply): (link: Option<string>)
    ensures link.Some? ==> reply.Answered? && link.value != "" && (link == reply.url || link == reply.mega)
    ensures reply.Answered? && Truthy(reply.url) ==> link == reply.url
    ensures link.None? ==> reply.Failed? || (!Truthy(reply.url) && !Truthy(reply.mega))
  {
    match reply
    case Failed => None
    case Answered(url, mega) =>
      if Truthy(url) then url else if Truthy(mega) then mega else None
  }

  /** The keys of a list of key/value pairs. */
  function KeysOf(pairs: seq<(string, Option<string>)>): (ks: set<string>)
    ensures forall i :: 0 <= i < |pairs| ==> pairs[i].0 in ks
    ensures forall k :: k in ks ==> exists i :: 0 <= i < |pairs| && pairs[i].0 == k
  {
    if pairs == [] then {} else {pairs[0].0} + KeysOf(pairs[1..])
  }

  /** The keyed merge `results[key] = resolvedUrl`, in order. */
  function Compose(pairs: seq<(string, Option<string>)>, acc: map<string, Option<string>>)
    : (r: map<string, Option<string>>)
    ensures r.Keys == acc.Keys + KeysOf(pairs)
    decreases |pairs|
  {
    if pairs == [] then acc
    else Compose(pairs[1..], acc[pairs[0].0 := pairs[0].1])
  }

  /** The merge adds every key of the pairs, gives each key the value of
      its last pair, and keeps the other entries it started from. */
  lemma {:induction false} ComposeLastWins(pairs: seq<(string, Option<string>)>, acc: map<string, Option<string>>)
    ensures Compose(pairs, acc).Keys == acc.Keys + KeysOf(pairs)
    ensures forall i :: 0 <= i < |pairs| && (forall j :: i < j < |pairs| ==> pairs[j].0 != pairs[i].0)
              ==> Compose(pairs, acc)[pairs[i].0] == pairs[i].1
    ensures forall k :: k in acc && k !in KeysOf(pairs) ==> Compose(pairs, acc)[k] == acc[k]
    decreases |pairs|
  {
    if pairs != [] {
      var acc' := acc[pairs[0].0 := pairs[0].1];
      ComposeLastWins(pairs[1..], acc');
      assert KeysOf(pairs) == {pairs[0].0} + KeysOf(pairs[1..]);
      forall i | 0 <= i < |pairs| && (forall j :: i < j < |pairs| ==> pairs[j].0 != pairs[i].0)
        ensures Compose(pairs, acc)[pairs[i].0] == pairs[i].1
      {
        if i > 0 {
          assert pairs[1..][i - 1] == pairs[i];
          assert forall j :: i - 1 < j < |pairs| - 1 ==> pairs[1..][j].0 != pairs[1..][i - 1].0 by {
            forall j | i - 1 < j < |pairs| - 1
              ensures pairs[1..][j].0 != pairs[1..][i - 1].0
            {
              assert pairs[1..][j] == pairs[j + 1];
            }
          }
        }
      }
    }
  }

  /** One result per variant, keyed, in variant order. */
  function VariantPairs(links: seq<Option<string>>): (pairs: seq<(string, Option<string>)>)
    requires |links| == |Variants|
    ensures |pairs| == |Variants|
    ensures forall i :: 0 <= i < |Variants| ==> pairs[i] == (Key(Variants[i]), links[i])
  {
    [("direct", links[0]), ("gdrive", links[1]), ("second", links[2]), ("pix", links[3]), ("nc", links[4])]
  }

  /** The merge of one result per variant: exactly the five keys, each
      holding its own variant's result. */
  lemma MergeVariants(links: seq<Option<string>>)
    requires |links| == |Variants|
    ensures Compose(VariantPairs(links), map[]).Keys == ResultKeys
    ensures forall i :: 0 <= i < |Variants| ==> Compose(VariantPairs(links), map[])[Key(Variants[i])] == links[i]
  {
    var pairs := VariantPairs(links);
    var m := map["direct" := links[0], "gdrive" := links[1], "second" := links[2],
                 "pix" := links[3], "nc" := links[4]];
    var m1 := map["direct" := links[0]];
    var m2 := m1["gdrive" := links[1]];
    var m3 := m2["second" := links[2]];
    var m4 := m3["pix" := links[3]];
    assert Compose(pairs, map[]) == Compose(pairs[1..], m1);
    assert Compose(pairs[1..], m1) == Compose(pairs[2..], m2) by { assert pairs[1..][1..] == pairs[2..]; }
    assert Compose(pairs[2..], m2) == Compose(pairs[3..], m3) by { assert pairs[2..][1..] == pairs[3..]; }
    assert Compose(pairs[3..], m3) == Compose(pairs[4..], m4) by { assert pairs[3..][1..] == pairs[4..]; }
    assert Compose(pairs[4..], m4) == m by { assert pairs[4..][1..] == []; }
  }

  /** The HTTP answer: an error with its status, or status 200 with the
      resolved links. */
  datatype Response =
    | Error(status: nat, message: string)
    | Resolved(requestedUrl: string, processedUrl: string, fileName: string,
               results: map<string, Option<string>>)

  /** The backend calls made, and the response sent. */
  datatype Exchange = Exchange(calls: seq<Call>, response: Response)

  const MissingUrl: string := "Missing 'url' query parameter."
  const NotInitialized: string :=
    "Server not initialized: Missing token or other static parameters. Check server logs."

  /** The calls of the fan-out, one per variant. */
  function FanOut(url: string, c: Credentials, file: string): (calls: seq<Call>)
    ensures |calls| == |Variants|
    ensures forall i :: 0 <= i < |calls| ==>
              && calls[i].target == Rewrite.ReplaceUrl(url) && calls[i].referer == url
              && calls[i].payload.Keys == BaseFields + Flags(Variants[i])
              && calls[i].payload["file"] == JStr(file) && calls[i].payload["token"] == JStr(c.token)
  {
    seq(|Variants|, i requires 0 <= i < |Variants| =>
      Call(Rewrite.ReplaceUrl(url), url, Payload(c, file, Variants[i])))
  }

  /** Each call's outcome, independently of the others: a call that threw
      is null for its own variant only. */
  function ResolveAll(calls: seq<Call>, backend: Call -> Reply): (links: seq<Option<string>>)
    ensures |links| == |calls|
    ensures forall i :: 0 <= i < |calls| ==> links[i] == Resolve(backend(calls[i]))
  {
    if calls == [] then [] else [Resolve(backend(calls[0]))] + ResolveAll(calls[1..], backend)
  }

  /** `GET /api/t?url=...`, given the `url` query value, the globals, the
      URL parser and the backend. */
  function HandleApiT(query: Option<string>, params: StaticParams,
                      parse: string -> FileName.ParsedUrl, backend: Call -> Reply): (ex: Exchange)
    ensures ex.response.Error? <==> !Truthy(query) || Configured(params).None?
    ensures ex.response.Error? ==> ex.calls == []
    ensures ex.response.Resolved? ==> && query.Some? && ex.response.requestedUrl == query.value
                                      && ex.response.processedUrl == Rewrite.ReplaceUrl(query.value)
                                      && |ex.calls| == |Variants|
                                      && ex.response.results.Keys == ResultKeys
  {
    if !Truthy(query) then Exchange([], Error(400, MissingUrl))
    else match Configured(params)
      case None => Exchange([], Error(500, NotInitialized))
      case Some(c) =>
        var url := query.value;
        var file := FileName.ExtractFileName(parse(url));
        var calls := FanOut(url, c, file);
        var links := ResolveAll(calls, backend);
        MergeVariants(links);
        Exchange(calls, Resolved(url, Rewrite.ReplaceUrl(url), file, Compose(VariantPairs(links), map[])))
  }

  /** A missing or empty `url` is a client error, before the credentials
      are looked at and without any backend call. */
  lemma HandleRejectsMissingUrl(query: Option<string>, params: StaticParams,
                                parse: string -> FileName.ParsedUrl, backend: Call -> Reply)
    requires !Truthy(query)
    ensures HandleApiT(query, params, parse, backend) == Exchange([], Error(400, MissingUrl))
  {
  }

  /** With a `url` but unusable globals, a server error, again without any
      backend call; a version of 0 is usable. */
  lemma HandleRejectsUnconfigured(query: Option<string>, params: StaticParams,
                                  parse: string -> FileName.ParsedUrl, backend: Call -> Reply)
    requires Truthy(query)
    requires !Truthy(params.token) || !Truthy(params.u) || params.v.None?
    ensures HandleApiT(query, params, parse, backend) == Exchange([], Error(500, NotInitialized))
  {
  }

  /** The handler answers with an error exactly when the `url` is missing
      or empty or a global is unusable; a version of 0 is usable. */
  lemma HandleValidation(query: Option<string>, params: StaticParams,
                         parse: string -> FileName.ParsedUrl, backend: Call -> Reply)
    ensures HandleApiT(query, params, parse, backend).response.Error? <==>
              !Truthy(query) || !Truthy(params.token) || !Truthy(params.u) || params.v.None?
    ensures HandleApiT(query, params, parse, backend).response.Error? ==>
              HandleApiT(query, params, parse, backend).calls == []
  {
    if Truthy(query) && Configured(params).Some? {
      HandleFansOut(query.value, params, parse, backend);
    }
  }

  /** The success path: five calls to the rewritten endpoint, each with the
      original URL as referer and its own variant's payload built from the
      file name of the original URL. */
  lemma HandleFansOut(url: string, params: StaticParams,
                      parse: string -> FileName.ParsedUrl, backend: Call -> Reply)
    requires url != "" && Configured(params).Some?
    ensures var ex := HandleApiT(Some(url), params, parse, backend);
      && ex.response == Resolved(url, Rewrite.ReplaceUrl(url), FileName.ExtractFileName(parse(url)),
                                 ex.response.results)
      && |ex.calls| == |Variants|
      && forall i :: 0 <= i < |Variants| ==>
           ex.calls[i] == Call(Rewrite.ReplaceUrl(url), url,
                               Payload(Configured(params).value, FileName.ExtractFileName(parse(url)), Variants[i]))
  {
    var c := Configured(params).value;
    var file := FileName.ExtractFileName(parse(url));
    var ex := HandleApiT(Some(url), params, parse, backend);
    assert ex.calls == FanOut(url, c, file);
  }

  /** The success path's exchange, with the links the calls resolved to. */
  lemma HandleSucceeds(url: string, params: StaticParams,
                       parse: string -> FileName.ParsedUrl, backend: Call -> Reply)
    returns (links: seq<Option<string>>)
    requires url != "" && Configured(params).Some?
    ensures var ex := HandleApiT(Some(url), params, parse, backend);
      && |links| == |Variants| == |ex.calls|
      && (forall i :: 0 <= i < |Variants| ==> links[i] == Resolve(backend(ex.calls[i])))
      && ex.response.Resolved?
      && ex.response.results == Compose(VariantPairs(links), map[])
  {
    var c := Configured(params).value;
    var file := FileName.ExtractFileName(parse(url));
    var calls := FanOut(url, c, file);
    links := ResolveAll(calls, backend);
    var ex := HandleApiT(Some(url), params, parse, backend);
    assert ex == Exchange(calls, Resolved(url, Rewrite.ReplaceUrl(url), file,
                                          Compose(VariantPairs(links), map[])));
  }

  /** The success path's results: exactly the five keys, each holding what
      its own call resolved to. */
  lemma HandleMergesResults(url: string, params: StaticParams,
                            parse: string -> FileName.ParsedUrl, backend: Call -> Reply)
    requires url != "" && Configured(params).Some?
    ensures var ex := HandleApiT(Some(url), params, parse, backend);
      && |ex.calls| == |Variants|
      && ex.response.Resolved?
      && ex.response.results.Keys == ResultKeys
      && forall i :: 0 <= i < |Variants| ==>
           ex.response.results[Key(Variants[i])] == Resolve(backend(ex.calls[i]))
  {
    var links := HandleSucceeds(url, params, parse, backend);
    MergeVariants(links);
  }

  /** Each call's outcome decides its own slot only: a call that threw
      leaves null under its key, and a backend that answers one call
      differently changes no other key. The calls do not depend on the
      backend's answers. */
  lemma HandleIsolatesCalls(url: string, params: StaticParams, parse: string -> FileName.ParsedUrl,
                            backend: Call -> Reply, other: Call -> Reply)
    requires url != "" && Configured(params).Some?
    ensures var ex := HandleApiT(Some(url), params, parse, backend);
            var ex' := HandleApiT(Some(url), params, parse, other);
      && ex.calls == ex'.calls && |ex.calls| == |Variants|
      && ex.response.Resolved? && ex'.response.Resolved?
      && ex.response.results.Keys == ex'.response.results.Keys == ResultKeys
      && (forall i :: 0 <= i < |Variants| && backend(ex.calls[i]) == Failed ==>
            ex.response.results[Key(Variants[i])] == None)
      && (forall i :: 0 <= i < |Variants| && backend(ex.calls[i]) == other(ex.calls[i]) ==>
            ex.response.results[Key(Variants[i])] == ex'.response.results[Key(Variants[i])])
  {
    HandleFansOut(url, params, parse, backend);
    HandleFansOut(url, params, parse, other);
    HandleMergesResults(url, params, parse, backend);
    HandleMergesResults(url, params, parse, other);
    var ex := HandleApiT(Some(url), params, parse, backend);
    var ex' := HandleApiT(Some(url), params, parse, other);
    assert ex.calls == ex'.calls;
  }

  /** The globals startup leaves pass the handler's check exactly when
      the script was read and all three patterns matched, and they then
      hold what the extractor found. */
  lemma InitializeConfigures(script: Option<string>)
    ensures Configured(Initialize(script)).Some? <==>
              script.Some? && ExtractStaticParameters(script.value).Some?
    ensures script.Some? ==> Configured(Initialize(script)) == ExtractStaticParameters(script.value)
  {
    if script.Some? && ExtractStaticParameters(script.value).Some? {
      var c := ExtractStaticParameters(script.value).value;
      assert Initialize(script) == StaticParams(Some(c.token), Some(c.u), Some(c.v));
      assert |c.token| > 0 && |c.u| > 0;
    }
  }

  /** No flag overwrites a static field, and the five variants send five
      different bodies. */
  lemma PayloadsDistinct(c: Credentials, file: string, v: Variant, w: Variant)
    requires v != w
    ensures Payload(c, file, v) != Payload(c, file, w)
    ensures BaseFields !! Flags(v)
  {
    if Key(v) !in Flags(w) {
      assert Key(v) in Payload(c, file, v) && Key(v) !in Payload(c, file, w);
    } else {
      assert Key(w) in Payload(c, file, w) && Key(w) !in Payload(c, file, v);
    }
  }
}
