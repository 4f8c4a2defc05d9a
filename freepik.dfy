/** create_image_with_freepik.py: a FreepikImageGenerator submits an Imagen3 job, polls its
    status until it is finished, and saves the images the finished job lists. The POST, the
    status GETs and the image downloads are oracle parameters, and so are the clock readings;
    the replies are the JSON values of PyJson. */
module Freepik {
  import opened Wrappers
  import opened Strings
  import opened PyDict
  import opened PyJson
  import opened PyPath

  const BaseUrl := "https://api.freepik.com/v1/ai/text-to-image/imagen3"
  const MissingKey := "需要提供 Freepik API key，请设置环境变量 FREEPIK_API_KEY 或直接传入"

  /** A FreepikImageGenerator: the key it sends (base URL and headers follow from it). */
  datatype Generator = Generator(apiKey: string)

  /** A str argument whose default is None: `if x:` holds when it is given and not empty. */
  predicate Given(x: Option<string>) {
    x.Some? && x.value != ""
  }

  /** `__init__(api_key)`: the argument, or else the FREEPIK_API_KEY variable; no usable key
      raises ValueError. */
  function NewGenerator(apiKey: Option<string>, env: Option<string>): (r: Result<Generator, string>)
    ensures r.Success? <==> Given(apiKey) || Given(env)
    ensures r.Failure? ==> r.error == MissingKey
    ensures r.Success? ==> r.value.apiKey != ""
    ensures Given(apiKey) ==> r == Success(Generator(apiKey.value))
    ensures !Given(apiKey) && Given(env) ==> r == Success(Generator(env.value))
  {
    var key := if Given(apiKey) then apiKey else env;
    if Given(key) then Success(Generator(key.value)) else Failure(MissingKey)
  }

  function Headers(g: Generator): seq<(string, string)> {
    [("Content-Type", "application/json"), ("x-freepik-api-key", g.apiKey)]
  }

  // ---------------------------------------------------------------- create_image

  /** The arguments of create_image. */
  datatype ImageArgs = ImageArgs(
    prompt: string, numImages: int, aspectRatio: string, style: string,
    color: Option<string>, lightning: Option<string>, framing: Option<string>,
    personGeneration: string, safetySettings: string)

  /** create_image's defaults. */
  function DefaultArgs(prompt: string): ImageArgs {
    ImageArgs(prompt, 1, "square_1_1", "photo", None, None, None, "allow_adult", "block_low_and_above")
  }

  /** The request body with the given effects dict. */
  function Payload(a: ImageArgs, effects: seq<(string, Json)>): Json {
    JDict([("prompt", JStr(a.prompt)), ("num_images", JInt(a.numImages)),
           ("aspect_ratio", JStr(a.aspectRatio)),
           ("styling", JDict([("style", JStr(a.style)), ("effects", JDict(effects))])),
           ("person_generation", JStr(a.personGeneration)),
           ("safety_settings", JStr(a.safetySettings))])
  }

  function Effect(key: string, x: Option<string>): seq<(string, Json)> {
    if Given(x) then [(key, JStr(x.value))] else []
  }

  /** The effects the body asks for: color, lightning and framing, each only when given. */
  function Effects(a: ImageArgs): seq<(string, Json)> {
    Effect("color", a.color) + Effect("lightning", a.lightning) + Effect("framing", a.framing)
  }

  /** Each effect key is present exactly when its argument is given, with that value, and
      there is no other key. */
  lemma EffectsSpec(a: ImageArgs)
    ensures Lookup(Effects(a), "color") == if Given(a.color) then Some(JStr(a.color.value)) else None
    ensures Lookup(Effects(a), "lightning")
         == if Given(a.lightning) then Some(JStr(a.lightning.value)) else None
    ensures Lookup(Effects(a), "framing") == if Given(a.framing) then Some(JStr(a.framing.value)) else None
    ensures forall k :: k in Keys(Effects(a)) ==> k == "color" || k == "lightning" || k == "framing"
  {
    var e := Effects(a);
    var c, l, f := Effect("color", a.color), Effect("lightning", a.lightning), Effect("framing", a.framing);
    KeysConcat(c + l, f);
    KeysConcat(c, l);
    LookupConcat(c + l, f, "color");
    LookupConcat(c, l, "color");
    LookupConcat(c + l, f, "lightning");
    LookupConcat(c, l, "lightning");
    LookupConcat(c + l, f, "framing");
    LookupConcat(c, l, "framing");
  }

  lemma {:induction false} KeysConcat<V>(d: seq<(string, V)>, e: seq<(string, V)>)
    ensures Keys(d + e) == Keys(d) + Keys(e)
    decreases |d|
  {
    if d == [] {
      assert d + e == e;
    } else {
      assert (d + e)[0] == d[0] && (d + e)[1..] == d[1..] + e;
      KeysConcat(d[1..], e);
    }
  }

  lemma {:induction false} LookupConcat<V>(d: seq<(string, V)>, e: seq<(string, V)>, k: string)
    ensures Lookup(d + e, k) == if Lookup(d, k).Some? then Lookup(d, k) else Lookup(e, k)
    decreases |d|
  {
    if d == [] {
      assert d + e == e;
    } else {
      assert (d + e)[0] == d[0] && (d + e)[1..] == d[1..] + e;
      LookupConcat(d[1..], e, k);
    }
  }

  /** Lines 170-188: the body, then its effects dict filled in place with each given effect.
      The dict in the body is the one being filled, so the body is written with its final
      contents. */
  method BuildPayload(a: ImageArgs) returns (payload: Json)
    ensures payload == Payload(a, Effects(a))
  {
    var effects: seq<(string, Json)> := [];
    if Given(a.color) {
      assert Put(effects, "color", JStr(a.color.value)) == [("color", JStr(a.color.value))];
      effects := Put(effects, "color", JStr(a.color.value));
    }
    assert effects == Effect("color", a.color);
    if Given(a.lightning) {
      assert |"lightning"| != |"color"|;
      PutNew(effects, "lightning", JStr(a.lightning.value));
      effects := Put(effects, "lightning", JStr(a.lightning.value));
    } else {
      assert effects + [] == effects;
    }
    assert effects == Effect("color", a.color) + Effect("lightning", a.lightning);
    if Given(a.framing) {
      assert |"framing"| != |"color"| && |"framing"| != |"lightning"|;
      KeysConcat(Effect("color", a.color), Effect("lightning", a.lightning));
      PutNew(effects, "framing", JStr(a.framing.value));
      effects := Put(effects, "framing", JStr(a.framing.value));
    } else {
      assert effects + [] == effects;
    }
    assert effects == Effects(a);
    payload := Payload(a, effects);
  }

  /** Whatever is given, the body has the same six keys. */
  lemma PayloadKeys(a: ImageArgs)
    ensures Keys(Payload(a, Effects(a)).members)
         == ["prompt", "num_images", "aspect_ratio", "styling", "person_generation", "safety_settings"]
  {
    var ms := Payload(a, Effects(a)).members;
    forall k | 0 <= k < 6 ensures Keys(ms[k..]) == [ms[k].0] + Keys(ms[k + 1..]) {
      assert ms[k..][1..] == ms[k + 1..];
    }
    assert ms[6..] == [] && ms[0..] == ms;
  }

  /** The task id of a create or status reply (lines 219-228 and 442-449): `data.task_id`
      when data holds one, else the top-level `task_id` (None when there is none).
      A reply of the wrong shape raises as `in`, `[...]` and `.get` do. */
  function TaskId(r: Json): Result<Json, string> {
    var hasData :- In("data", r);
    if hasData then
      var d :- Index(r, "data");
      var inData :- In("task_id", d);
      if inData then Index(d, "task_id") else TopTaskId(r)
    else TopTaskId(r)
  }

  function TopTaskId(r: Json): Result<Json, string> {
    var has :- In("task_id", r);
    if has then Get(r, "task_id", JNull) else Success(JNull)
  }

  /** On a dict reply: the nested id wins, the top-level one is the fallback, and no id reads
      as None. */
  lemma TaskIdShapes(ms: seq<(string, Json)>, dm: seq<(string, Json)>)
    ensures Lookup(ms, "data") == Some(JDict(dm)) && Lookup(dm, "task_id").Some? ==>
      TaskId(JDict(ms)) == Success(Lookup(dm, "task_id").value)
    ensures Lookup(ms, "data") == Some(JDict(dm)) && Lookup(dm, "task_id").None? ==>
      TaskId(JDict(ms)) == Success(GetOr(ms, "task_id", JNull))
    ensures Lookup(ms, "data").None? ==> TaskId(JDict(ms)) == Success(GetOr(ms, "task_id", JNull))
  {
  }

  /** A data field that is a number cannot be searched for the id. */
  lemma TaskIdScalarData(ms: seq<(string, Json)>, n: int)
    requires Lookup(ms, "data") == Some(JInt(n))
    ensures TaskId(JDict(ms)) == Failure("argument of type '" + "int" + "' is not iterable")
  {
  }

  /** `create_image(...)`: the POST either raises (a connection failure or an error status) or
      returns a body, which is read as {} when it is not JSON. The id lookup that follows only
      prints, but it raises on a reply of the wrong shape. */
  function CreateImageResult(g: Generator, a: ImageArgs,
                             post: (string, seq<(string, string)>, Json) -> Result<Option<Json>, string>)
    : Result<Json, string>
  {
    var reply :- post(BaseUrl, Headers(g), Payload(a, Effects(a)));
    var data := match reply case Some(j) => j case None => JDict([]);
    var id :- TaskId(data);
    Success(data)
  }

  method CreateImage(g: Generator, a: ImageArgs,
                     post: (string, seq<(string, string)>, Json) -> Result<Option<Json>, string>)
    returns (r: Result<Json, string>)
    ensures r == CreateImageResult(g, a, post)
  {
    var payload := BuildPayload(a);
    var reply := post(BaseUrl, Headers(g), payload);
    if reply.Failure? {
      return Failure(reply.error);
    }
    var data := if reply.value.Some? then reply.value.value else JDict([]);
    var id := TaskId(data);
    if id.Failure? {
      return Failure(id.error);
    }
    r := Success(data);
  }

  /** A reply create_image returns is one whose id lookup does not raise. */
  lemma CreateImageParses(g: Generator, a: ImageArgs,
                          post: (string, seq<(string, string)>, Json) -> Result<Option<Json>, string>)
    ensures CreateImageResult(g, a, post).Success? ==> TaskId(CreateImageResult(g, a, post).value).Success?
    ensures post(BaseUrl, Headers(g), Payload(a, Effects(a))) == Success(None) ==>
      CreateImageResult(g, a, post) == Success(JDict([]))
  {
  }

  // ---------------------------------------------------------------- wait_for_completion

  /** The status of a status reply (lines 292-300): `data.status` when there is a data
      field, else `task_status`; None when absent. */
  function Status(result: Json): Result<Json, string> {
    var hasData :- In("data", result);
    if hasData then
      var d :- Index(result, "data");
      Get(d, "status", JNull)
    else Get(result, "task_status", JNull)
  }

  function StatusUrl(taskId: Json): string {
    BaseUrl + "/" + Str(taskId)
  }

  /** `poll_interval`, the seconds slept after every reply that lets the wait go on. */
  const PollInterval: real := 5.0

  /** Readings of `time.time()`, one before the loop (0) and one at each check of the loop
      condition (k + 1 before the k-th status request). The first check comes no earlier than
      the start; every later one follows a status request and a sleep of `poll_interval`
      seconds (lines 311-315), so it is at least that much later than the check before. */
  ghost predicate Advancing(clock: nat -> real) {
    clock(0) <= clock(1) && forall k: nat :: 1 <= k ==> clock(k) + PollInterval <= clock(k + 1)
  }

  /** Before the k-th status request the wait has lasted at least k sleeps. */
  lemma {:induction false} ClockLower(clock: nat -> real, k: nat)
    requires Advancing(clock)
    ensures clock(k + 1) - clock(0) >= PollInterval * (k as real)
    decreases k
  {
    if k > 0 {
      ClockLower(clock, k - 1);
      assert clock(k) + PollInterval <= clock(k + 1);
    }
  }

  function TimeoutMessage(maxWait: int): string {
    "任务在 " + IntToString(maxWait) + " 秒内未完成"
  }

  /** What one status reply decides: COMPLETED ends the wait with the reply, FAILED or ERROR
      raises, any other status (None included) means wait and check again. */
  function Verdict(result: Json): (v: Result<Option<Json>, string>)
    ensures v.Success? && v.value.Some? ==> v.value.value == result
  {
    var status :- Status(result);
    if status == JStr("COMPLETED") then Success(Some(result))
    else if status == JStr("FAILED") || status == JStr("ERROR") then
      Failure("图片生成失败: " + Str(result))
    else Success(None)
  }

  /** The polling loop from its k-th check on: time up raises TimeoutError; otherwise the
      k-th status request is made and its verdict ends the wait or lets it go on. */
  function PollFrom(taskId: Json, maxWait: int, poll: (string, nat) -> Result<Json, string>,
                    clock: nat -> real, k: nat): Result<Json, string>
    requires Advancing(clock)
    decreases maxWait - k
  {
    if clock(k + 1) - clock(0) >= maxWait as real then Failure(TimeoutMessage(maxWait))
    else
      var result :- poll(StatusUrl(taskId), k);
      var verdict :- Verdict(result);
      if verdict.Some? then Success(verdict.value)
      else
        ClockLower(clock, k);
        PollFrom(taskId, maxWait, poll, clock, k + 1)
  }

  /** `wait_for_completion(task_id, max_wait_time)`. The sleep between checks only moves the
      clock, whose readings are given. */
  method WaitForCompletion(taskId: Json, maxWait: int, poll: (string, nat) -> Result<Json, string>,
                           clock: nat -> real)
    returns (r: Result<Json, string>)
    requires Advancing(clock)
    ensures r == PollFrom(taskId, maxWait, poll, clock, 0)
  {
    var url := StatusUrl(taskId);
    var k: nat := 0;
    while clock(k + 1) - clock(0) < maxWait as real
      invariant PollFrom(taskId, maxWait, poll, clock, k) == PollFrom(taskId, maxWait, poll, clock, 0)
      decreases maxWait - k
    {
      var result := poll(url, k);
      if result.Failure? {
        return Failure(result.error);
      }
      var status := Status(result.value);
      if status.Failure? {
        return Failure(status.error);
      }
      if status.value == JStr("COMPLETED") {
        return Success(result.value);
      } else if status.value == JStr("FAILED") || status.value == JStr("ERROR") {
        return Failure("图片生成失败: " + Str(result.value));
      }
      ClockLower(clock, k);
      k := k + 1;
    }
    r := Failure(TimeoutMessage(maxWait));
  }

  /** A successful wait returns a reply whose status is COMPLETED, fetched by a request made
      before the time was up. */
  lemma {:induction false} PollCompleted(taskId: Json, maxWait: int, poll: (string, nat) -> Result<Json, string>,
                                         clock: nat -> real, k: nat)
    requires Advancing(clock)
    ensures PollFrom(taskId, maxWait, poll, clock, k).Success? ==>
      exists j: nat :: k <= j && clock(j + 1) - clock(0) < maxWait as real
        && poll(StatusUrl(taskId), j) == PollFrom(taskId, maxWait, poll, clock, k)
        && Status(PollFrom(taskId, maxWait, poll, clock, k).value) == Success(JStr("COMPLETED"))
    decreases maxWait - k
  {
    var r := PollFrom(taskId, maxWait, poll, clock, k);
    if r.Success? && clock(k + 1) - clock(0) < maxWait as real {
      var result := poll(StatusUrl(taskId), k);
      if Verdict(result.value).value.None? {
        ClockLower(clock, k);
        PollCompleted(taskId, maxWait, poll, clock, k + 1);
      }
    }
  }

  /** Only requests that can come before the time is up matter: the j-th comes after j sleeps,
      so status oracles that agree on the requests with `poll_interval * j < max_wait_time`
      give the same outcome. */
  lemma {:induction false} PollOnlyInTime(taskId: Json, maxWait: int,
                                          p: (string, nat) -> Result<Json, string>,
                                          q: (string, nat) -> Result<Json, string>,
                                          clock: nat -> real, k: nat)
    requires Advancing(clock)
    requires forall j: nat :: PollInterval * (j as real) < maxWait as real ==>
      p(StatusUrl(taskId), j) == q(StatusUrl(taskId), j)
    ensures PollFrom(taskId, maxWait, p, clock, k) == PollFrom(taskId, maxWait, q, clock, k)
    decreases maxWait - k
  {
    if clock(k + 1) - clock(0) < maxWait as real {
      ClockLower(clock, k);
      assert p(StatusUrl(taskId), k) == q(StatusUrl(taskId), k);
      PollOnlyInTime(taskId, maxWait, p, q, clock, k + 1);
    }
  }

  /** With no time at all, nothing is requested and the wait times out. */
  lemma PollNoTime(taskId: Json, maxWait: int, poll: (string, nat) -> Result<Json, string>,
                   clock: nat -> real)
    requires Advancing(clock) && maxWait <= 0
    ensures PollFrom(taskId, maxWait, poll, clock, 0) == Failure(TimeoutMessage(maxWait))
  {
    ClockLower(clock, 0);
  }

  // ---------------------------------------------------------------- download_images

  /** The generated list of a finished task (lines 340-359): `data.generated` when data holds
      it, else the top-level `generated`, else []; a result that is not a dict has none. The
      list found in either field is passed to `len` by the print that follows it (lines 345
      and 349), which raises TypeError for anything but a list, dict or str. */
  function Generated(result: Json): (r: Result<Json, string>)
    ensures r.Success? ==> Sized(r.value)
  {
    match result
    case JDict(ms) =>
      (match Lookup(ms, "data")
       case Some(d) =>
         var inData :- In("generated", d);
         if inData then
           var g :- Index(d, "generated");
           var n :- Len(g);
           Success(g)
         else TopGenerated(ms)
       case None => TopGenerated(ms))
    case _ => Success(JList([]))
  }

  /** The `elif`/`else` of lines 346-352: the top-level `generated` when present (then
      measured by `len`), else []. */
  function TopGenerated(ms: seq<(string, Json)>): (r: Result<Json, string>)
    ensures r.Success? ==> Sized(r.value)
  {
    match Lookup(ms, "generated")
    case Some(g) =>
      var n :- Len(g);
      Success(g)
    case None => Success(JList([]))
  }

  /** The field found is the result when `len` accepts it, and `len`'s TypeError otherwise;
      shown for both places the list may sit. */
  lemma GeneratedFound(ms: seq<(string, Json)>, g: Json)
    requires Lookup(ms, "generated") == Some(g) && Lookup(ms, "data").None?
    ensures Generated(JDict(ms)) == (if Sized(g) then Success(g)
                                     else Failure("object of type '" + TypeName(g) + "' has no len()"))
  {
  }

  lemma GeneratedNested(ms: seq<(string, Json)>, dm: seq<(string, Json)>, g: Json)
    requires Lookup(ms, "data") == Some(JDict(dm)) && Lookup(dm, "generated") == Some(g)
    ensures Generated(JDict(ms)) == (if Sized(g) then Success(g)
                                     else Failure("object of type '" + TypeName(g) + "' has no len()"))
  {
  }

  /** What `enumerate` walks over a value `len` accepted: a list's items, a dict's keys, a
      str's characters. */
  function Elements(v: Json): (es: seq<Json>)
    requires Sized(v)
    ensures |es| == Len(v).value
  {
    match v
    case JList(items) => items
    case JDict(ms) => seq(|ms|, i requires 0 <= i < |ms| => JStr(ms[i].0))
    case JStr(s) => seq(|s|, i requires 0 <= i < |s| => JStr([s[i]]))
  }

  /** Python's `a or b`. */
  function Or(a: Json, b: Json): Json {
    if Truthy(a) then a else b
  }

  /** The URL an entry names: the entry itself when it is a str, the first truthy of url,
      image_url and link when it is a dict (the last of them otherwise); None for any other
      entry. */
  function ImageUrl(entry: Json): Option<Json> {
    match entry
    case JStr(_) => Some(entry)
    case JDict(ms) =>
      Some(Or(Or(GetOr(ms, "url", JNull), GetOr(ms, "image_url", JNull)), GetOr(ms, "link", JNull)))
    case _ => None
  }

  /** A downloaded image: its content-type header ("" when absent) and its bytes. */
  datatype Download = Download(contentType: string, content: seq<bv8>)

  /** A file download_images writes. */
  datatype Saved = Saved(path: Path, content: seq<bv8>)

  /** Lines 391-399. */
  function Ext(contentType: string): (ext: string)
    ensures ext == ".jpg" || ext == ".png" || ext == ".webp"
    ensures Contains(contentType, "jpeg") || Contains(contentType, "jpg") ==> ext == ".jpg"
    ensures ext == ".png" <==> !Contains(contentType, "jpeg") && !Contains(contentType, "jpg")
                               && Contains(contentType, "png")
    ensures ext == ".webp" <==> !Contains(contentType, "jpeg") && !Contains(contentType, "jpg")
                                && !Contains(contentType, "png") && Contains(contentType, "webp")
  {
    if Contains(contentType, "jpeg") || Contains(contentType, "jpg") then ".jpg"
    else if Contains(contentType, "png") then ".png"
    else if Contains(contentType, "webp") then ".webp"
    else ".jpg"
  }

  /** What the naming argument needs of an extension: it starts with the dot. */
  predicate DotExt(e: string) {
    |e| >= 1 && e[0] == '.'
  }

  /** `f"freepik_imagen3_{int(time.time())}_{i+1}{ext}"`. */
  function FileName(t: int, i: nat, ext: string): string {
    "freepik_imagen3_" + IntToString(t) + "_" + NatToString(i + 1) + ext
  }

  lemma NoSeparators(t: int, n: nat)
    ensures '_' !in IntToString(t) && '.' !in NatToString(n)
  {
    var a := IntToString(t);
    if t < 0 {
      assert a == "-" + NatToString(-t);
      assert forall k :: 1 <= k < |a| ==> a[k] == NatToString(-t)[k - 1];
    }
  }

  /** A name of FileName's shape determines its counter when neither the stamp holds the
      underscore nor the counter the dot. */
  lemma NameCancel(a: string, x: string, e: string, b: string, y: string, f: string)
    requires '_' !in a && '_' !in b && '.' !in x && '.' !in y
    requires DotExt(e) && DotExt(f)
    requires "freepik_imagen3_" + a + "_" + x + e == "freepik_imagen3_" + b + "_" + y + f
    ensures x == y
  {
    var p := "freepik_imagen3_";
    assert e == ['.'] + e[1..] && f == ['.'] + f[1..];
    assert p + a + "_" + x + e == p + (a + ['_'] + (x + ['.'] + e[1..]));
    assert p + b + "_" + y + f == p + (b + ['_'] + (y + ['.'] + f[1..]));
    assert a + ['_'] + (x + ['.'] + e[1..]) == (p + a + "_" + x + e)[|p|..];
    assert b + ['_'] + (y + ['.'] + f[1..]) == (p + b + "_" + y + f)[|p|..];
    SeparatorCancel(a, x + ['.'] + e[1..], b, y + ['.'] + f[1..], '_');
    SeparatorCancel(x, e[1..], y, f[1..], '.');
  }

  /** Names of different positions differ, whatever the clock said and whatever the types. */
  lemma FileNameInjective(t: int, i: nat, e: string, u: int, j: nat, f: string)
    requires DotExt(e) && DotExt(f)
    requires FileName(t, i, e) == FileName(u, j, f)
    ensures i == j
  {
    NoSeparators(t, i + 1);
    NoSeparators(u, j + 1);
    NameCancel(IntToString(t), NatToString(i + 1), e, IntToString(u), NatToString(j + 1), f);
    CounterInjective(i, j);
  }

  lemma CounterInjective(i: nat, j: nat)
    requires NatToString(i + 1) == NatToString(j + 1)
    ensures i == j
  {
    NatToStringInjective(i + 1, j + 1);
  }

  /** Entry i of the list: skipped when it names no URL, when the URL is falsy or when the
      download raises; otherwise saved under its name in the output directory. */
  function Attempt(outDir: string, entry: Json, i: nat, fetch: Json -> Result<Download, string>,
                   clock: nat -> int): Option<Saved>
  {
    match ImageUrl(entry)
    case None => None
    case Some(url) =>
      if !Truthy(url) then None
      else
        match fetch(url)
        case Failure(_) => None
        case Success(d) => Some(Saved(Path(outDir, FileName(clock(i), i, Ext(d.contentType))), d.content))
  }

  function AsList<T>(o: Option<T>): seq<T> {
    match o case Some(x) => [x] case None => []
  }

  /** The files saved for the entries from position i on, in order. */
  function Downloads(outDir: string, entries: seq<Json>, fetch: Json -> Result<Download, string>,
                     clock: nat -> int, i: nat): seq<Saved>
    decreases |entries| - i
  {
    if i >= |entries| then []
    else AsList(Attempt(outDir, entries[i], i, fetch, clock)) + Downloads(outDir, entries, fetch, clock, i + 1)
  }

  /** `download_images(task_result, output_dir)`, with the clock reading taken at each save. */
  function DownloadResult(outDir: string, taskResult: Json, fetch: Json -> Result<Download, string>,
                          clock: nat -> int): Result<seq<Saved>, string>
  {
    var generated :- Generated(taskResult);
    if !Truthy(generated) then Success([])
    else Success(Downloads(outDir, Elements(generated), fetch, clock, 0))
  }

  method DownloadImages(outDir: string, taskResult: Json, fetch: Json -> Result<Download, string>,
                        clock: nat -> int)
    returns (r: Result<seq<Saved>, string>)
    ensures r == DownloadResult(outDir, taskResult, fetch, clock)
    ensures r.Failure? <==> Generated(taskResult).Failure?
    ensures r.Failure? ==> r.error == Generated(taskResult).error
  {
    var generated := Generated(taskResult);
    if generated.Failure? {
      return Failure(generated.error);
    }
    if !Truthy(generated.value) {
      return Success([]);
    }
    var downloaded := SaveAll(outDir, Elements(generated.value), fetch, clock);
    r := Success(downloaded);
  }

  /** The loop of lines 363-412, appending each saved file in turn. */
  method SaveAll(outDir: string, images: seq<Json>, fetch: Json -> Result<Download, string>,
                 clock: nat -> int)
    returns (downloaded: seq<Saved>)
    ensures downloaded == Downloads(outDir, images, fetch, clock, 0)
  {
    downloaded := [];
    var i := 0;
    while i < |images|
      invariant 0 <= i <= |images|
      invariant downloaded + Downloads(outDir, images, fetch, clock, i)
             == Downloads(outDir, images, fetch, clock, 0)
    {
      var saved := SaveImage(outDir, images[i], i, fetch, clock);
      DownloadsStep(outDir, images, fetch, clock, i);
      AppendStep(downloaded, AsList(saved), Downloads(outDir, images, fetch, clock, i + 1),
                 Downloads(outDir, images, fetch, clock, 0));
      downloaded := downloaded + AsList(saved);
      i := i + 1;
    }
    assert downloaded + [] == downloaded;
  }

  lemma DownloadsStep(outDir: string, entries: seq<Json>, fetch: Json -> Result<Download, string>,
                      clock: nat -> int, i: nat)
    requires i < |entries|
    ensures Downloads(outDir, entries, fetch, clock, i)
         == AsList(Attempt(outDir, entries[i], i, fetch, clock)) + Downloads(outDir, entries, fetch, clock, i + 1)
  {
  }

  lemma AppendStep<T>(done: seq<T>, head: seq<T>, rest: seq<T>, total: seq<T>)
    requires done + (head + rest) == total
    ensures done + head + rest == total
  {
  }

  /** One pass of the loop of lines 363-412: an entry of another type, or with no URL, is
      passed over; a download that raises is passed over; otherwise the image is saved. */
  method SaveImage(outDir: string, entry: Json, i: nat, fetch: Json -> Result<Download, string>,
                   clock: nat -> int)
    returns (saved: Option<Saved>)
    ensures saved == Attempt(outDir, entry, i, fetch, clock)
  {
    var imageUrl: Json;
    if entry.JStr? {
      imageUrl := entry;
    } else if entry.JDict? {
      imageUrl := Or(Or(GetOr(entry.members, "url", JNull), GetOr(entry.members, "image_url", JNull)),
                     GetOr(entry.members, "link", JNull));
    } else {
      return None;
    }
    if !Truthy(imageUrl) {
      return None;
    }
    var response := fetch(imageUrl);
    if response.Failure? {
      return None;
    }
    var ext := Ext(response.value.contentType);
    var filePath := Path(outDir, FileName(clock(i), i, ext));
    saved := Some(Saved(filePath, response.value.content));
  }

  /** A saved file is named for a position from i on. */
  ghost predicate NamedFrom(s: Saved, i: nat) {
    exists j: nat, t: int, e: string :: i <= j && DotExt(e) && s.path.name == FileName(t, j, e)
  }

  lemma AttemptNamed(outDir: string, entry: Json, i: nat, fetch: Json -> Result<Download, string>,
                     clock: nat -> int)
    ensures var a := Attempt(outDir, entry, i, fetch, clock);
      a.Some? ==> NamedFrom(a.value, i)
  {
    var a := Attempt(outDir, entry, i, fetch, clock);
    if a.Some? {
      var e := Ext(fetch(ImageUrl(entry).value).value.contentType);
      assert DotExt(e) && a.value.path.name == FileName(clock(i), i, e);
    }
  }

  lemma NamedFromLater(s: Saved, i: nat)
    requires NamedFrom(s, i + 1)
    ensures NamedFrom(s, i)
  {
    var j: nat, t: int, e: string :| i + 1 <= j && DotExt(e) && s.path.name == FileName(t, j, e);
    assert i <= j;
  }

  lemma {:induction false} DownloadsNamed(outDir: string, entries: seq<Json>,
                                          fetch: Json -> Result<Download, string>,
                                          clock: nat -> int, i: nat)
    requires i <= |entries|
    ensures var r := Downloads(outDir, entries, fetch, clock, i);
      |r| <= |entries| - i && forall s :: s in r ==> NamedFrom(s, i)
    decreases |entries| - i
  {
    if i < |entries| {
      DownloadsNamed(outDir, entries, fetch, clock, i + 1);
      var tail := Downloads(outDir, entries, fetch, clock, i + 1);
      AttemptNamed(outDir, entries[i], i, fetch, clock);
      forall s | s in tail ensures NamedFrom(s, i) {
        NamedFromLater(s, i);
      }
    }
  }

  predicate NamesDistinct(r: seq<Saved>) {
    forall a, b :: 0 <= a < b < |r| ==> r[a].path.name != r[b].path.name
  }

  lemma ConsDistinct(x: Saved, tail: seq<Saved>)
    requires NamesDistinct(tail)
    requires forall s :: s in tail ==> s.path.name != x.path.name
    ensures NamesDistinct([x] + tail)
  {
    var r := [x] + tail;
    forall a, b | 0 <= a < b < |r| ensures r[a].path.name != r[b].path.name {
      assert r[b] == tail[b - 1] && tail[b - 1] in tail;
      if a > 0 {
        assert r[a] == tail[a - 1];
      }
    }
  }

  /** A file saved for entry i is named apart from every file of a later entry. */
  lemma FreshName(x: Saved, u: int, i: nat, e: string, tail: seq<Saved>)
    requires DotExt(e) && x.path.name == FileName(u, i, e)
    requires forall s :: s in tail ==> NamedFrom(s, i + 1)
    ensures forall s :: s in tail ==> s.path.name != x.path.name
  {
    forall s | s in tail ensures s.path.name != x.path.name {
      var j: nat, t: int, f: string :| i + 1 <= j && DotExt(f) && s.path.name == FileName(t, j, f);
      if s.path.name == x.path.name {
        FileNameInjective(t, j, f, u, i, e);
      }
    }
  }

  /** download_images never writes two files under one name. */
  lemma {:induction false} DownloadNamesDistinct(outDir: string, entries: seq<Json>,
                                                 fetch: Json -> Result<Download, string>,
                                                 clock: nat -> int, i: nat)
    ensures NamesDistinct(Downloads(outDir, entries, fetch, clock, i))
    decreases |entries| - i
  {
    if i < |entries| {
      DownloadNamesDistinct(outDir, entries, fetch, clock, i + 1);
      DownloadsNamed(outDir, entries, fetch, clock, i + 1);
      var a := Attempt(outDir, entries[i], i, fetch, clock);
      var tail := Downloads(outDir, entries, fetch, clock, i + 1);
      if a.Some? {
        var e := Ext(fetch(ImageUrl(entries[i]).value).value.contentType);
        FreshName(a.value, clock(i), i, e, tail);
        ConsDistinct(a.value, tail);
      } else {
        assert Downloads(outDir, entries, fetch, clock, i) == tail;
      }
    }
  }

  // ---------------------------------------------------------------- generate_and_download

  /** `generate_and_download(prompt, output_dir, **kwargs)`: create, check the reply and its
      id, wait (with the default 300 seconds), download. */
  function GenerateResult(g: Generator, a: ImageArgs, outDir: string,
                          post: (string, seq<(string, string)>, Json) -> Result<Option<Json>, string>,
                          poll: (string, nat) -> Result<Json, string>, pollClock: nat -> real,
                          fetch: Json -> Result<Download, string>, saveClock: nat -> int)
    : Result<seq<Saved>, string>
    requires Advancing(pollClock)
  {
    var result :- CreateImageResult(g, a, post);
    if !Truthy(result) then Failure("API返回空响应")
    else
      match TaskId(result)
      case Failure(e) => Failure(e)
      case Success(id) =>
        if !Truthy(id) then Failure("未获取到任务ID。API响应: " + Str(result))
        else
          var done :- PollFrom(id, 300, poll, pollClock, 0);
          DownloadResult(outDir, done, fetch, saveClock)
  }

  method GenerateAndDownload(g: Generator, a: ImageArgs, outDir: string,
                             post: (string, seq<(string, string)>, Json) -> Result<Option<Json>, string>,
                             poll: (string, nat) -> Result<Json, string>, pollClock: nat -> real,
                             fetch: Json -> Result<Download, string>, saveClock: nat -> int)
    returns (r: Result<seq<Saved>, string>)
    requires Advancing(pollClock)
    ensures r == GenerateResult(g, a, outDir, post, poll, pollClock, fetch, saveClock)
  {
    var result := CreateImage(g, a, post);
    if result.Failure? {
      return Failure(result.error);
    }
    if !Truthy(result.value) {
      return Failure("API返回空响应");
    }
    CreateImageParses(g, a, post);
    var taskId := TaskId(result.value).value;
    if !Truthy(taskId) {
      return Failure("未获取到任务ID。API响应: " + Str(result.value));
    }
    var completed := WaitForCompletion(taskId, 300, poll, pollClock);
    if completed.Failure? {
      return Failure(completed.error);
    }
    r := DownloadImages(outDir, completed.value, fetch, saveClock);
  }

  /** Files are saved only for a created task with a usable id that completed in time; a
      body that is not JSON is the empty dict, which raises "API返回空响应". */
  lemma GenerateNeedsCompletion(g: Generator, a: ImageArgs, outDir: string,
                                post: (string, seq<(string, string)>, Json) -> Result<Option<Json>, string>,
                                poll: (string, nat) -> Result<Json, string>, pollClock: nat -> real,
                                fetch: Json -> Result<Download, string>, saveClock: nat -> int)
    requires Advancing(pollClock)
    ensures var r := GenerateResult(g, a, outDir, post, poll, pollClock, fetch, saveClock);
      var c := CreateImageResult(g, a, post);
      && (r.Success? ==>
            c.Success? && Truthy(c.value) && TaskId(c.value).Success? && Truthy(TaskId(c.value).value)
            && PollFrom(TaskId(c.value).value, 300, poll, pollClock, 0).Success?)
      && (post(BaseUrl, Headers(g), Payload(a, Effects(a))) == Success(None) ==> r == Failure("API返回空响应"))
  {
    CreateImageParses(g, a, post);
  }
}
