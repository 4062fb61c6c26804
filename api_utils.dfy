/**
 * The response helpers of the HTTP layer: pulling the answer out of a search
 * response, and shaping success and error bodies. Logging of unexpected
 * shapes is not modelled.
 */
module ApiUtils {
  import opened Wrappers
  import opened Json
  import RequestIds

  const AskText := "ask_text"
  const InProgress := "IN_PROGRESS"
  const Done := "DONE"

  /** Python's type name of a value, as it appears in exception messages. */
  function TypeName(v: Json): string {
    match v
    case JNull => "NoneType"
    case JBool(_) => "bool"
    case JNum(_) => "int"
    case JStr(_) => "str"
    case JList(_) => "list"
    case JObj(_) => "dict"
  }

  predicate AllStrings(items: seq<Json>) {
    forall i :: 0 <= i < |items| ==> items[i].JStr?
  }

  /** `"".join(items)` on a list of strings. */
  function Join(items: seq<Json>): (s: string)
    requires AllStrings(items)
    ensures items == [] ==> s == ""
    ensures |items| == 1 ==> s == items[0].s
  {
    if items == [] then "" else items[0].s + Join(items[1..])
  }

  /** The position of the first item that is not a string. */
  function FirstNonString(items: seq<Json>): (k: nat)
    requires !AllStrings(items)
    ensures k < |items| && !items[k].JStr?
    ensures forall j :: 0 <= j < k ==> items[j].JStr?
  {
    if !items[0].JStr? then 0 else 1 + FirstNonString(items[1..])
  }

  /** What one block contributes to the scan of `extract_answer`. */
  datatype Verdict =
      /** `continue`: look at the next block. */
    | Skip
      /** The scan returns this progress and answer. */
    | Answered(progress: string, answer: Json)
      /** Any other progress value: the scan returns no answer. */
    | Unexpected
      /** An exception: a block that is not a dict, or a chunk that is not a string. */
    | Raises(message: string)

  function UsageOf(block: Json): Json
    requires block.JObj?
  {
    Get(block.fields, "intended_usage", JStr(""))
  }

  function MarkdownOf(block: Json): Json
    requires block.JObj?
  {
    Get(block.fields, "markdown_block", JObj(map[]))
  }

  /** A block the scan looks at: an `ask_text` block whose markdown block is a dict. */
  predicate Qualifies(block: Json) {
    block.JObj? && UsageOf(block) == JStr(AskText) && MarkdownOf(block).JObj?
  }

  function ProgressOf(block: Json): Json
    requires Qualifies(block)
  {
    Get(MarkdownOf(block).fields, "progress", JNull)
  }

  function ChunksOf(block: Json): Json
    requires Qualifies(block)
  {
    Get(MarkdownOf(block).fields, "chunks", JList([]))
  }

  /**
   * One pass of the loop body of `extract_answer`, lines 26-62: skip blocks
   * that do not qualify and in-progress blocks without a chunk list; answer
   * with the joined chunks or the final answer; stop on any other progress.
   */
  function BlockVerdict(block: Json): (v: Verdict)
    ensures v.Raises? <==>
      !block.JObj?
      || (Qualifies(block) && ProgressOf(block) == JStr(InProgress)
          && ChunksOf(block).JList? && !AllStrings(ChunksOf(block).items))
    ensures v.Skip? <==>
      block.JObj? && (!Qualifies(block) || (ProgressOf(block) == JStr(InProgress) && !ChunksOf(block).JList?))
    ensures v.Unexpected? <==>
      Qualifies(block) && ProgressOf(block) != JStr(InProgress) && ProgressOf(block) != JStr(Done)
    ensures v.Answered? ==> Qualifies(block) && ProgressOf(block) == JStr(v.progress)
    ensures v.Answered? && v.progress == InProgress ==>
      ChunksOf(block).JList? && AllStrings(ChunksOf(block).items) && v.answer == JStr(Join(ChunksOf(block).items))
    ensures v.Answered? && v.progress == Done ==> v.answer == Get(MarkdownOf(block).fields, "answer", JNull)
  {
    if !block.JObj? then
      Raises("'" + TypeName(block) + "' object has no attribute 'get'")
    else if UsageOf(block) != JStr(AskText) then
      Skip
    else if !MarkdownOf(block).JObj? then
      Skip
    else
      var progress := ProgressOf(block);
      if progress == JStr(InProgress) then
        var chunks := ChunksOf(block);
        if !chunks.JList? then Skip
        else if !AllStrings(chunks.items) then
          var k := FirstNonString(chunks.items);
          Raises("sequence item " + RequestIds.Decimal(k) + ": expected str instance, "
                 + TypeName(chunks.items[k]) + " found")
        else Answered(InProgress, JStr(Join(chunks.items)))
      else if progress == JStr(Done) then
        Answered(Done, Get(MarkdownOf(block).fields, "answer", JNull))
      else
        Unexpected
  }

  /** The `for block in blocks` loop: the verdict of the first block that is not skipped. */
  function Scan(blocks: seq<Json>): Verdict {
    if blocks == [] then Skip
    else if BlockVerdict(blocks[0]).Skip? then Scan(blocks[1..])
    else BlockVerdict(blocks[0])
  }

  /**
   * The scan's result is decided by the first block that is not skipped, and
   * is `Skip` (no answer) when every block is skipped.
   */
  lemma {:induction false} ScanStopsAtFirst(blocks: seq<Json>, k: nat)
    requires k <= |blocks|
    requires forall j :: 0 <= j < k ==> BlockVerdict(blocks[j]).Skip?
    requires k < |blocks| ==> !BlockVerdict(blocks[k]).Skip?
    ensures Scan(blocks) == if k < |blocks| then BlockVerdict(blocks[k]) else Skip
  {
    if blocks != [] && k > 0 {
      ScanStopsAtFirst(blocks[1..], k - 1);
    }
  }

  /** Blocks after the deciding one are never looked at. */
  lemma ScanIgnoresLaterBlocks(blocks: seq<Json>, later: seq<Json>)
    requires blocks != [] && !BlockVerdict(blocks[|blocks| - 1]).Skip?
    requires forall j :: 0 <= j < |blocks| - 1 ==> BlockVerdict(blocks[j]).Skip?
    ensures Scan(blocks + later) == Scan(blocks)
  {
    var k := |blocks| - 1;
    ScanStopsAtFirst(blocks, k);
    ScanStopsAtFirst(blocks + later, k);
  }

  /** `{"answer": None, "backend_uuid": ...}` */
  function NoAnswer(uuid: Json): map<string, Json> {
    map["answer" := JNull, "backend_uuid" := uuid]
  }

  /**
   * `extract_answer`: a response whose `blocks` is not a list gives no
   * answer; otherwise the scan decides. The backend id is always echoed.
   */
  function ExtractAnswer(res: map<string, Json>): (r: Result<map<string, Json>, string>)
    ensures r.Ok? ==> "answer" in r.value && "backend_uuid" in r.value
    ensures r.Ok? ==> r.value["backend_uuid"] == Get(res, "backend_uuid", JNull)
    ensures !Get(res, "blocks", JList([])).JList? ==> r == Ok(NoAnswer(Get(res, "backend_uuid", JNull)))
    ensures r.Err? <==> Get(res, "blocks", JList([])).JList? && Scan(Get(res, "blocks", JList([])).items).Raises?
    ensures r.Ok? && "progress" in r.value <==>
      Get(res, "blocks", JList([])).JList? && Scan(Get(res, "blocks", JList([])).items).Answered?
    ensures r.Ok? && "progress" in r.value ==>
      var v := Scan(Get(res, "blocks", JList([])).items);
      r.value["progress"] == JStr(v.progress) && r.value["answer"] == v.answer
    ensures r.Ok? && "progress" !in r.value ==> r.value == NoAnswer(Get(res, "backend_uuid", JNull))
  {
    var uuid := Get(res, "backend_uuid", JNull);
    var blocks := Get(res, "blocks", JList([]));
    if !blocks.JList? then Ok(NoAnswer(uuid))
    else
      match Scan(blocks.items)
      case Answered(progress, answer) =>
        Ok(map["progress" := JStr(progress), "answer" := answer, "backend_uuid" := uuid])
      case Raises(message) => Err(message)
      case _ => Ok(NoAnswer(uuid))
  }

  /** A response whose one block is a finished `ask_text` block yields that block's answer. */
  lemma DoneBlockAnswers(uuid: Json, answer: Json)
    ensures
      var md := JObj(map["progress" := JStr(Done), "answer" := answer]);
      var block := JObj(map["intended_usage" := JStr(AskText), "markdown_block" := md]);
      ExtractAnswer(map["backend_uuid" := uuid, "blocks" := JList([block])])
        == Ok(map["progress" := JStr(Done), "answer" := answer, "backend_uuid" := uuid])
  {
    var md := JObj(map["progress" := JStr(Done), "answer" := answer]);
    var block := JObj(map["intended_usage" := JStr(AskText), "markdown_block" := md]);
    assert BlockVerdict(block) == Answered(Done, answer);
    assert [block][1..] == [];
  }

  /** Python truthiness of an optional string: present and non-empty. */
  predicate Truthy(s: Option<string>) {
    s.Some? && s.value != ""
  }

  /** A `JSONResponse`: the body as rendered when it is built, and the status code. */
  datatype ApiResponse = ApiResponse(content: map<string, Json>, statusCode: int)

  /**
   * The body `create_api_response` renders: a dict as it is, anything else
   * under `"data"`; `account_used` is added only when it is truthy.
   */
  function ResponseBody(content: Json, accountUsed: Option<string>): (body: map<string, Json>)
    ensures !content.JObj? ==> "data" in body && body["data"] == content
    ensures !content.JObj? ==> body.Keys == {"data"} + (if Truthy(accountUsed) then {"account_used"} else {})
    ensures content.JObj? ==> forall k :: k in content.fields && k != "account_used" ==> k in body && body[k] == content.fields[k]
    ensures content.JObj? ==> body.Keys == content.fields.Keys + (if Truthy(accountUsed) then {"account_used"} else {})
    ensures Truthy(accountUsed) ==> body["account_used"] == JStr(accountUsed.value)
    ensures !Truthy(accountUsed) && content.JObj? ==> body == content.fields
  {
    var base := if content.JObj? then content.fields else map["data" := content];
    if Truthy(accountUsed) then base["account_used" := JStr(accountUsed.value)] else base
  }

  /** A mutable dict passed by reference, as `create_api_response` receives one. */
  class JsonDict {
    var fields: map<string, Json>

    constructor (fields: map<string, Json>)
      ensures this.fields == fields
    {
      this.fields := fields;
    }
  }

  /** The `content` argument: a dict the caller still holds, or any other value. */
  datatype Content = DictContent(dict: JsonDict) | PlainContent(value: Json)

  /**
   * `create_api_response`. A dict argument is annotated in place, so the
   * caller sees `account_used` in its own dict afterwards.
   */
  method CreateApiResponse(content: Content, accountUsed: Option<string>, statusCode: int) returns (r: ApiResponse)
    requires content.PlainContent? ==> !content.value.JObj?
    modifies if content.DictContent? then {content.dict} else {}
    ensures r.statusCode == statusCode
    ensures content.DictContent? ==> r.content == ResponseBody(JObj(old(content.dict.fields)), accountUsed)
    ensures content.DictContent? ==> content.dict.fields == r.content
    ensures content.PlainContent? ==> r.content == ResponseBody(content.value, accountUsed)
  {
    match content
    case DictContent(d) =>
      if Truthy(accountUsed) {
        d.fields := d.fields["account_used" := JStr(accountUsed.value)];
      }
      r := ApiResponse(d.fields, statusCode);
    case PlainContent(v) =>
      var body := map["data" := v];
      if Truthy(accountUsed) {
        body := body["account_used" := JStr(accountUsed.value)];
      }
      r := ApiResponse(body, statusCode);
  }

  /** `handle_api_error`: status 500, the exception text, and the account (null when absent). */
  function HandleApiError(message: string, accountUsed: Option<string>): (r: ApiResponse)
    ensures r.statusCode == 500
    ensures r.content.Keys == {"error", "account_used"}
    ensures r.content["error"] == JStr(message)
    ensures r.content["account_used"] == JNull <==> accountUsed.None?
    ensures accountUsed.Some? ==> r.content["account_used"] == JStr(accountUsed.value)
  {
    ApiResponse(map["error" := JStr(message), "account_used" := OptStr(accountUsed)], 500)
  }
}
