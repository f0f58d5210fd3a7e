/**
 Translating a conversation to the Converse API: system messages are carried elsewhere, consecutive tool results
 are gathered into one user turn, and cache points are appended when caching is on. JSON values travel as
 documents and come back as they were.
 */
module Bedrock {
  import opened Prelude
  import opened JsonValues

  // ---------------------------------------------------------------- JSON values and documents

  /** A document number does not insist that a `NegInt` is negative, and its floats need not be finite. */
  datatype DocNumber = DPosInt(u: nat) | DNegInt(i: int) | DFloat(f: real) | DNonFinite

  datatype Document =
    | DNull
    | DBool(b: bool)
    | DNum(n: DocNumber)
    | DStr(s: string)
    | DArr(items: seq<Document>)
    | DObj(fields: map<string, Document>)

  function JsonToDocument(v: Json): Document {
    match v
    case Null => DNull
    case Bool(b) => DBool(b)
    case Num(PosInt(u)) => DNum(DPosInt(u))
    case Num(NegInt(i)) => DNum(DNegInt(i))
    case Num(Float(f)) => DNum(DFloat(f))
    case Str(s) => DStr(s)
    case Arr(items) => DArr(seq(|items|, i requires 0 <= i < |items| => JsonToDocument(items[i])))
    case Obj(fields) => DObj(map k | k in fields :: JsonToDocument(fields[k]))
  }

  /** `json!` of an integer keeps its sign, whatever the document called it; of a non-finite float it is null. */
  function DocumentToJson(d: Document): Json {
    match d
    case DNull => Null
    case DBool(b) => Bool(b)
    case DNum(DPosInt(u)) => Num(PosInt(u))
    case DNum(DNegInt(i)) => Num(if i >= 0 then PosInt(i) else NegInt(i))
    case DNum(DFloat(f)) => Num(Float(f))
    case DNum(DNonFinite) => Null
    case DStr(s) => Str(s)
    case DArr(items) => Arr(seq(|items|, i requires 0 <= i < |items| => DocumentToJson(items[i])))
    case DObj(fields) => Obj(map k | k in fields :: DocumentToJson(fields[k]))
  }

  /** Every JSON value survives the trip. */
  lemma {:induction false} JsonSurvives(v: Json)
    requires JsonOk(v)
    ensures DocumentToJson(JsonToDocument(v)) == v
  {
    match v
    case Arr(items) =>
      forall i | 0 <= i < |items| ensures DocumentToJson(JsonToDocument(items[i])) == items[i] {
        assert items[i] in items;
        JsonSurvives(items[i]);
      }
    case Obj(fields) =>
      forall k | k in fields ensures DocumentToJson(JsonToDocument(fields[k])) == fields[k] {
        JsonSurvives(fields[k]);
      }
    case _ =>
  }

  /** The document says what JSON can say: no non-finite float, and `NegInt` only for negative numbers. */
  predicate Expressible(d: Document) {
    match d
    case DNum(n) => !n.DNonFinite? && (n.DNegInt? ==> n.i < 0)
    case DArr(items) => forall x :: x in items ==> Expressible(x)
    case DObj(fields) => forall k :: k in fields ==> Expressible(fields[k])
    case _ => true
  }

  /** A document survives the trip the other way exactly when JSON can express it. */
  lemma {:induction false} DocumentSurvivesIff(d: Document)
    ensures JsonToDocument(DocumentToJson(d)) == d <==> Expressible(d)
  {
    match d
    case DArr(items) =>
      forall i | 0 <= i < |items|
        ensures JsonToDocument(DocumentToJson(items[i])) == items[i] <==> Expressible(items[i])
      {
        DocumentSurvivesIff(items[i]);
      }
      var back := JsonToDocument(DocumentToJson(d)).items;
      assert |back| == |items| && forall i :: 0 <= i < |items| ==> back[i] == JsonToDocument(DocumentToJson(items[i]));
      if back == items {
        forall x | x in items ensures Expressible(x) {
          var i :| 0 <= i < |items| && items[i] == x;
          assert back[i] == items[i];
        }
      }
    case DObj(fields) =>
      forall k | k in fields
        ensures JsonToDocument(DocumentToJson(fields[k])) == fields[k] <==> Expressible(fields[k])
      {
        DocumentSurvivesIff(fields[k]);
      }
      var back := JsonToDocument(DocumentToJson(d)).fields;
      assert back.Keys == fields.Keys;
      assert forall k :: k in fields ==> back[k] == JsonToDocument(DocumentToJson(fields[k]));
      if back == fields {
        forall k | k in fields ensures Expressible(fields[k]) { assert back[k] == fields[k]; }
      }
    case _ =>
  }

  // ---------------------------------------------------------------- conversations

  datatype Role = System | User | Assistant | Tool

  datatype ToolCall = ToolCall(id: string, name: string, arguments: Json)

  datatype AiMessage = AiMessage(role: Role, content: Option<string>, toolCalls: Option<seq<ToolCall>>,
                                 toolCallId: Option<string>)

  datatype Block =
    | Text(text: string)
    | ToolUse(id: string, name: string, input: Document)
    | ToolResult(id: string, text: string)
    | CachePoint

  datatype TurnRole = UserTurn | AssistantTurn

  datatype Turn = Turn(role: TurnRole, blocks: seq<Block>)

  datatype Error = EmptyAssistantMessage | MissingToolCallId

  function CallBlocks(calls: seq<ToolCall>): (r: seq<Block>)
    ensures |r| == |calls|
  {
    seq(|calls|, i requires 0 <= i < |calls| => ToolUse(calls[i].id, calls[i].name, JsonToDocument(calls[i].arguments)))
  }

  /** The blocks one message stands for. */
  function BlocksOf(m: AiMessage): seq<Block> {
    match m.role
    case System => []
    case User => [Text(m.content.GetOr(""))]
    case Assistant =>
      (if m.content.Some? then [Text(m.content.value)] else [])
      + CallBlocks(m.toolCalls.GetOr([]))
    case Tool => [ToolResult(m.toolCallId.GetOr(""), m.content.GetOr("{}"))]
  }

  /** A message the API's builders accept. */
  predicate Acceptable(m: AiMessage) {
    match m.role
    case Assistant => BlocksOf(m) != []
    case Tool => m.toolCallId.Some?
    case _ => true
  }

  function Refusal(m: AiMessage): Error
    requires !Acceptable(m)
  {
    if m.role.Assistant? then EmptyAssistantMessage else MissingToolCallId
  }

  function FlushTools(pending: seq<Block>): seq<Turn> {
    if pending == [] then [] else [Turn(UserTurn, pending)]
  }

  /** The turns for the remaining messages, with tool results still to be sent. */
  function Translate(ms: seq<AiMessage>, pending: seq<Block>): Result<seq<Turn>, Error> {
    if ms == [] then Ok(FlushTools(pending))
    else if !Acceptable(ms[0]) then Err(Refusal(ms[0]))
    else match ms[0].role
      case System => Translate(ms[1..], pending)
      case Tool => Translate(ms[1..], pending + BlocksOf(ms[0]))
      case _ =>
        var rest := Translate(ms[1..], []);
        if rest.Err? then rest
        else Ok(FlushTools(pending) + [TurnOf(ms[0])] + rest.value)
  }

  /** With caching on, the last turn ends in a cache point. */
  function WithCachePoint(turns: seq<Turn>): seq<Turn> {
    if turns == [] then turns
    else turns[|turns| - 1 := Turn(turns[|turns| - 1].role, turns[|turns| - 1].blocks + [CachePoint])]
  }

  function TranslateRequest(ms: seq<AiMessage>, caching: bool): Result<seq<Turn>, Error> {
    var r := Translate(ms, []);
    if r.Ok? && caching then Ok(WithCachePoint(r.value)) else r
  }

  /** The rest of a translation after some turns have been written. */
  function Resumed(turns: seq<Turn>, rest: Result<seq<Turn>, Error>): Result<seq<Turn>, Error> {
    if rest.Err? then rest else Ok(turns + rest.value)
  }

  function TurnOf(m: AiMessage): Turn {
    Turn(if m.role.Assistant? then AssistantTurn else UserTurn, BlocksOf(m))
  }

  lemma ResumeStep(turns: seq<Turn>, pending: seq<Block>, ms: seq<AiMessage>)
    requires ms != [] && Acceptable(ms[0])
    ensures ms[0].role.System? ==> Translate(ms, pending) == Translate(ms[1..], pending)
    ensures ms[0].role.Tool? ==> Translate(ms, pending) == Translate(ms[1..], pending + BlocksOf(ms[0]))
    ensures ms[0].role.User? || ms[0].role.Assistant? ==>
              Resumed(turns, Translate(ms, pending))
              == Resumed(turns + FlushTools(pending) + [TurnOf(ms[0])], Translate(ms[1..], []))
  {
    if ms[0].role.User? || ms[0].role.Assistant? {
      var rest := Translate(ms[1..], []);
      if rest.Ok? {
        assert turns + (FlushTools(pending) + [TurnOf(ms[0])] + rest.value)
            == turns + FlushTools(pending) + [TurnOf(ms[0])] + rest.value;
      }
    }
  }

  method TranslateMessages(ms: seq<AiMessage>, caching: bool) returns (r: Result<seq<Turn>, Error>)
    ensures r == TranslateRequest(ms, caching)
  {
    var turns: seq<Turn> := [];
    var pending: seq<Block> := [];
    assert ms[0..] == ms;
    assert Translate(ms, []).Ok? ==> [] + Translate(ms, []).value == Translate(ms, []).value;
    for i := 0 to |ms|
      invariant Resumed(turns, Translate(ms[i..], pending)) == Translate(ms, [])
    {
      var m := ms[i];
      assert ms[i..][0] == m && ms[i..][1..] == ms[i + 1..];
      if !Acceptable(m) { return Err(Refusal(m)); }
      ResumeStep(turns, pending, ms[i..]);
      match m.role {
        case System =>
        case Tool => pending := pending + BlocksOf(m);
        case _ =>
          if pending == [] { assert turns + [] == turns; }
          if pending != [] {
            turns := turns + [Turn(UserTurn, pending)];
            pending := [];
          }
          turns := turns + [TurnOf(m)];
      }
    }
    assert ms[|ms|..] == [];
    if pending == [] { assert turns + [] == turns; }
    if pending != [] { turns := turns + [Turn(UserTurn, pending)]; }
    if caching && turns != [] {
      var last := turns[|turns| - 1];
      turns := turns[|turns| - 1 := Turn(last.role, last.blocks + [CachePoint])];
    }
    r := Ok(turns);
  }

  // ---------------------------------------------------------------- nothing is lost or reordered

  function AllBlocks(turns: seq<Turn>): seq<Block> {
    if turns == [] then [] else turns[0].blocks + AllBlocks(turns[1..])
  }

  function MessageBlocks(ms: seq<AiMessage>): seq<Block> {
    if ms == [] then [] else BlocksOf(ms[0]) + MessageBlocks(ms[1..])
  }

  lemma AllBlocksAppend(a: seq<Turn>, b: seq<Turn>)
    ensures AllBlocks(a + b) == AllBlocks(a) + AllBlocks(b)
  {
    if a == [] {
      assert a + b == b;
    } else {
      assert (a + b)[1..] == a[1..] + b;
      AllBlocksAppend(a[1..], b);
    }
  }

  lemma FlushBlocks(pending: seq<Block>)
    ensures AllBlocks(FlushTools(pending)) == pending
  {
    if pending != [] { assert AllBlocks([Turn(UserTurn, pending)][1..]) == [] && pending + [] == pending; }
  }

  ghost predicate AllAcceptable(ms: seq<AiMessage>) {
    forall i :: 0 <= i < |ms| ==> Acceptable(ms[i])
  }

  lemma AllAcceptableCons(ms: seq<AiMessage>)
    requires ms != []
    ensures AllAcceptable(ms) <==> Acceptable(ms[0]) && AllAcceptable(ms[1..])
  {
    if AllAcceptable(ms[1..]) {
      forall i | 0 < i < |ms| ensures Acceptable(ms[1..][i - 1]) && ms[i] == ms[1..][i - 1] { }
    }
  }

  lemma TurnBlocks(pending: seq<Block>, m: AiMessage, rest: seq<Turn>)
    ensures AllBlocks(FlushTools(pending) + [TurnOf(m)] + rest) == pending + BlocksOf(m) + AllBlocks(rest)
  {
    FlushBlocks(pending);
    OneTurnBlocks(TurnOf(m));
    AllBlocksAppend(FlushTools(pending), [TurnOf(m)]);
    AllBlocksAppend(FlushTools(pending) + [TurnOf(m)], rest);
  }

  lemma OneTurnBlocks(turn: Turn)
    ensures AllBlocks([turn]) == turn.blocks
  {
    assert AllBlocks([turn][1..]) == [] && turn.blocks + [] == turn.blocks;
  }

  /** The translation succeeds exactly when every message is acceptable, and then carries every block in order. */
  ghost predicate InOrder(ms: seq<AiMessage>, pending: seq<Block>) {
    && (Translate(ms, pending).Ok? <==> AllAcceptable(ms))
    && (Translate(ms, pending).Ok? ==> AllBlocks(Translate(ms, pending).value) == pending + MessageBlocks(ms))
  }

  lemma InOrderTool(ms: seq<AiMessage>, pending: seq<Block>)
    requires ms != [] && ms[0].role.Tool? && Acceptable(ms[0]) && InOrder(ms[1..], pending + BlocksOf(ms[0]))
    ensures InOrder(ms, pending)
  {
    AllAcceptableCons(ms);
    ResumeStep([], pending, ms);
    Regroup(pending, BlocksOf(ms[0]), MessageBlocks(ms[1..]));
  }

  lemma InOrderSpoken(ms: seq<AiMessage>, pending: seq<Block>)
    requires ms != [] && (ms[0].role.User? || ms[0].role.Assistant?) && Acceptable(ms[0]) && InOrder(ms[1..], [])
    ensures InOrder(ms, pending)
  {
    AllAcceptableCons(ms);
    var rest := Translate(ms[1..], []);
    if rest.Ok? {
      TurnBlocks(pending, ms[0], rest.value);
      EmptyFirst(MessageBlocks(ms[1..]));
      Regroup(pending, BlocksOf(ms[0]), MessageBlocks(ms[1..]));
    }
  }

  lemma InOrderSystem(ms: seq<AiMessage>, pending: seq<Block>)
    requires ms != [] && ms[0].role.System? && InOrder(ms[1..], pending)
    ensures InOrder(ms, pending)
  {
    AllAcceptableCons(ms);
    assert MessageBlocks(ms) == MessageBlocks(ms[1..]);
  }

  lemma {:induction false} BlocksInOrder(ms: seq<AiMessage>, pending: seq<Block>)
    ensures InOrder(ms, pending)
    decreases |ms|
  {
    if ms == [] {
      FlushBlocks(pending);
      assert pending + MessageBlocks(ms) == pending;
    } else if !Acceptable(ms[0]) {
      AllAcceptableCons(ms);
    } else {
      match ms[0].role
      case System =>
        BlocksInOrder(ms[1..], pending);
        InOrderSystem(ms, pending);
      case Tool =>
        BlocksInOrder(ms[1..], pending + BlocksOf(ms[0]));
        InOrderTool(ms, pending);
      case _ =>
        BlocksInOrder(ms[1..], []);
        InOrderSpoken(ms, pending);
    }
  }

  /** When a request translates, its turns carry exactly the blocks of its messages, in order. */
  lemma RequestBlocksInOrder(ms: seq<AiMessage>)
    ensures TranslateRequest(ms, false).Ok? <==> AllAcceptable(ms)
    ensures TranslateRequest(ms, false).Ok? ==> AllBlocks(TranslateRequest(ms, false).value) == MessageBlocks(ms)
  {
    BlocksInOrder(ms, []);
    assert [] + MessageBlocks(ms) == MessageBlocks(ms);
  }

  // ---------------------------------------------------------------- reading a turn back

  datatype Answer = Answer(content: Option<string>, toolCalls: Option<seq<ToolCall>>)

  function Texts(blocks: seq<Block>): seq<string> {
    if blocks == [] then []
    else Texts(blocks[..|blocks| - 1]) + (if Last(blocks).Text? then [Last(blocks).text] else [])
  }

  function Calls(blocks: seq<Block>): seq<ToolCall> {
    if blocks == [] then []
    else Calls(blocks[..|blocks| - 1]) + (if Last(blocks).ToolUse? then [CallOf(Last(blocks))] else [])
  }

  function Last(blocks: seq<Block>): Block
    requires blocks != []
  {
    blocks[|blocks| - 1]
  }

  function CallOf(b: Block): ToolCall
    requires b.ToolUse?
  {
    ToolCall(b.id, b.name, DocumentToJson(b.input))
  }

  function Join(texts: seq<string>): string {
    if texts == [] then "" else texts[0] + Join(texts[1..])
  }

  /** What the translation of a response makes of the blocks of its message. */
  function ReadBlocks(blocks: seq<Block>): Answer {
    var texts, calls := Texts(blocks), Calls(blocks);
    Answer(if texts == [] then None else Some(Join(texts)), if calls == [] then None else Some(calls))
  }

  method TranslateResponse(blocks: seq<Block>) returns (r: Answer)
    ensures r == ReadBlocks(blocks)
  {
    var textParts: seq<string> := [];
    var toolCalls: seq<ToolCall> := [];
    for i := 0 to |blocks|
      invariant textParts == Texts(blocks[..i]) && toolCalls == Calls(blocks[..i])
    {
      assert blocks[..i + 1][..i] == blocks[..i];
      match blocks[i] {
        case Text(t) => textParts := textParts + [t];
        case ToolUse(id, name, input) => toolCalls := toolCalls + [ToolCall(id, name, DocumentToJson(input))];
        case _ =>
      }
    }
    assert blocks[..|blocks|] == blocks;
    r := Answer(if textParts == [] then None else Some(Join(textParts)),
                if toolCalls == [] then None else Some(toolCalls));
  }

  lemma OneMoreBlock(blocks: seq<Block>, b: Block)
    ensures Texts(blocks + [b]) == Texts(blocks) + (if b.Text? then [b.text] else [])
    ensures Calls(blocks + [b]) == Calls(blocks) + (if b.ToolUse? then [CallOf(b)] else [])
  {
    assert (blocks + [b])[..|blocks|] == blocks;
  }

  /** Reading the blocks of tool calls gives the calls back. */
  lemma {:induction false} CallBlocksRead(calls: seq<ToolCall>)
    requires forall c :: c in calls ==> JsonOk(c.arguments)
    ensures Texts(CallBlocks(calls)) == [] && Calls(CallBlocks(calls)) == calls
    decreases |calls|
  {
    if calls != [] {
      var front, c := calls[..|calls| - 1], calls[|calls| - 1];
      var b := ToolUse(c.id, c.name, JsonToDocument(c.arguments));
      CallBlocksRead(front);
      assert CallBlocks(calls) == CallBlocks(front) + [b];
      OneMoreBlock(CallBlocks(front), b);
      CallRead(c);
      assert front + [c] == calls;
    }
  }

  lemma CallRead(c: ToolCall)
    requires JsonOk(c.arguments)
    ensures CallOf(ToolUse(c.id, c.name, JsonToDocument(c.arguments))) == c
  {
    JsonSurvives(c.arguments);
  }

  lemma {:induction false} TextFirst(t: string, blocks: seq<Block>)
    ensures Texts([Text(t)] + blocks) == [t] + Texts(blocks)
    ensures Calls([Text(t)] + blocks) == Calls(blocks)
    decreases |blocks|
  {
    if blocks == [] {
      assert [Text(t)] + blocks == [] + [Text(t)];
      OneMoreBlock([], Text(t));
    } else {
      var front, b := blocks[..|blocks| - 1], Last(blocks);
      TextFirst(t, front);
      assert [Text(t)] + blocks == ([Text(t)] + front) + [b];
      OneMoreBlock([Text(t)] + front, b);
      Regroup([t], Texts(front), if b.Text? then [b.text] else []);
    }
  }

  /**
   An assistant message sent to the API reads back as it was, its content and every call with its id, name and
   arguments, whether a cache point was appended to its turn or not. An empty list of calls reads back as none.
   */
  lemma AssistantTurnSurvives(m: AiMessage, caching: bool)
    requires m.role.Assistant? && forall c :: c in m.toolCalls.GetOr([]) ==> JsonOk(c.arguments)
    ensures ReadBlocks(BlocksOf(m) + (if caching then [CachePoint] else []))
         == Answer(m.content, if m.toolCalls == Some([]) then None else m.toolCalls)
  {
    var calls := m.toolCalls.GetOr([]);
    CallBlocksRead(calls);
    if m.content.Some? {
      TextFirst(m.content.value, CallBlocks(calls));
      JoinOne(m.content.value);
    } else {
      EmptyFirst(CallBlocks(calls));
    }
    var blocks := BlocksOf(m);
    if caching {
      OneMoreBlock(blocks, CachePoint);
      assert Texts(blocks) + [] == Texts(blocks) && Calls(blocks) + [] == Calls(blocks);
    } else {
      assert blocks + [] == blocks;
    }
  }

  lemma JoinOne(t: string)
    ensures Join([t] + []) == t
  {
    assert Join([t][1..]) == "" && t + "" == t;
  }

  // ---------------------------------------------------------------- cache points

  function EraseBlocks(blocks: seq<Block>): seq<Block> {
    if blocks == [] then []
    else (if blocks[0].CachePoint? then [] else [blocks[0]]) + EraseBlocks(blocks[1..])
  }

  function Erase(turns: seq<Turn>): (r: seq<Turn>)
    ensures |r| == |turns| && forall i :: 0 <= i < |turns| ==> r[i] == Turn(turns[i].role, EraseBlocks(turns[i].blocks))
  {
    seq(|turns|, i requires 0 <= i < |turns| => Turn(turns[i].role, EraseBlocks(turns[i].blocks)))
  }

  lemma {:induction false} EraseOneMore(blocks: seq<Block>)
    ensures EraseBlocks(blocks + [CachePoint]) == EraseBlocks(blocks)
    decreases |blocks|
  {
    if blocks == [] {
      assert EraseBlocks([CachePoint]) == [] + EraseBlocks([CachePoint][1..]);
    } else {
      assert (blocks + [CachePoint])[1..] == blocks[1..] + [CachePoint];
      EraseOneMore(blocks[1..]);
    }
  }

  lemma {:induction false} ErasePlain(blocks: seq<Block>)
    requires forall b :: b in blocks ==> !b.CachePoint?
    ensures EraseBlocks(blocks) == blocks
    decreases |blocks|
  {
    if blocks != [] {
      assert blocks[0] in blocks;
      ErasePlain(blocks[1..]);
      assert blocks == [blocks[0]] + blocks[1..];
    }
  }

  ghost predicate NoCachePoint(turns: seq<Turn>) {
    forall i, b :: 0 <= i < |turns| && b in turns[i].blocks ==> !b.CachePoint?
  }

  lemma {:induction false} TranslateHasNoCachePoint(ms: seq<AiMessage>, pending: seq<Block>)
    requires forall b :: b in pending ==> !b.CachePoint?
    ensures Translate(ms, pending).Ok? ==> NoCachePoint(Translate(ms, pending).value)
    decreases |ms|
  {
    if ms != [] && Acceptable(ms[0]) {
      match ms[0].role
      case System => TranslateHasNoCachePoint(ms[1..], pending);
      case Tool => TranslateHasNoCachePoint(ms[1..], pending + BlocksOf(ms[0]));
      case _ => TranslateHasNoCachePoint(ms[1..], []);
    }
  }

  /** Caching changes nothing but the cache points: erasing them gives the request without caching. */
  lemma CachingOnlyAddsCachePoints(ms: seq<AiMessage>)
    ensures TranslateRequest(ms, true).Ok? <==> TranslateRequest(ms, false).Ok?
    ensures TranslateRequest(ms, true).Ok? ==>
              Erase(TranslateRequest(ms, true).value) == TranslateRequest(ms, false).value
  {
    var r := Translate(ms, []);
    TranslateHasNoCachePoint(ms, []);
    if r.Ok? {
      var cached := WithCachePoint(r.value);
      forall i | 0 <= i < |r.value| ensures EraseBlocks(cached[i].blocks) == r.value[i].blocks {
        ErasePlain(r.value[i].blocks);
        if i == |r.value| - 1 { EraseOneMore(r.value[i].blocks); }
      }
      assert Erase(cached) == r.value;
    }
  }

  // ---------------------------------------------------------------- alternation

  ghost predicate Alternates(turns: seq<Turn>) {
    forall i :: 0 <= i < |turns| - 1 ==> turns[i].role != turns[i + 1].role
  }

  /** The conversation without its system messages. */
  function Spoken(ms: seq<AiMessage>): seq<AiMessage> {
    if ms == [] then []
    else (if ms[0].role.System? then [] else [ms[0]]) + Spoken(ms[1..])
  }

  /** Two messages in a row that end up in one turn, or in turns of different roles. */
  predicate Follows(a: AiMessage, b: AiMessage) {
    (a.role.Tool? && b.role.Tool?) || a.role.Assistant? != b.role.Assistant?
  }

  ghost predicate AllFollow(ms: seq<AiMessage>) {
    forall i :: 0 <= i < |ms| - 1 ==> Follows(ms[i], ms[i + 1])
  }

  lemma SpokenTail(ms: seq<AiMessage>)
    requires ms != []
    ensures !ms[0].role.System? ==> Spoken(ms) == [ms[0]] + Spoken(ms[1..])
    ensures ms[0].role.System? ==> Spoken(ms) == Spoken(ms[1..])
  { }

  lemma AllFollowCons(m: AiMessage, rest: seq<AiMessage>)
    ensures AllFollow([m] + rest) <==> AllFollow(rest) && (rest == [] || Follows(m, rest[0]))
  {
    var ms := [m] + rest;
    assert rest != [] ==> Follows(ms[0], ms[0 + 1]) == Follows(m, rest[0]);
    if AllFollow(ms) {
      forall i | 0 <= i < |rest| - 1 ensures Follows(rest[i], rest[i + 1]) {
        assert Follows(ms[i + 1], ms[i + 1 + 1]);
      }
    }
    if AllFollow(rest) && (rest == [] || Follows(m, rest[0])) {
      forall i | 0 <= i < |ms| - 1 ensures Follows(ms[i], ms[i + 1]) {
        if i > 0 { assert Follows(rest[i - 1], rest[i - 1 + 1]); }
      }
    }
  }

  lemma AlternatesCons(t: Turn, rest: seq<Turn>)
    ensures Alternates([t] + rest) <==> Alternates(rest) && (rest == [] || t.role != rest[0].role)
  {
    var turns := [t] + rest;
    if Alternates(turns) {
      forall i | 0 <= i < |rest| - 1 ensures rest[i].role != rest[i + 1].role {
        assert turns[i + 1].role != turns[i + 1 + 1].role;
      }
      if rest != [] { assert turns[0].role != turns[0 + 1].role; }
    }
    if Alternates(rest) && (rest == [] || t.role != rest[0].role) {
      forall i | 0 <= i < |turns| - 1 ensures turns[i].role != turns[i + 1].role {
        if i > 0 { assert rest[i - 1].role != rest[i - 1 + 1].role; }
      }
    }
  }

  /** The maximal runs of tool messages, and every other message by itself. */
  function Groups(ms: seq<AiMessage>): (g: seq<seq<AiMessage>>)
    ensures ms != [] ==> g != [] && g[0] != [] && g[0][0] == ms[0]
    ensures ms == [] ==> g == []
  {
    if ms == [] then []
    else if |ms| > 1 && ms[0].role.Tool? && ms[1].role.Tool? then
      var g := Groups(ms[1..]);
      [[ms[0]] + g[0]] + g[1..]
    else [[ms[0]]] + Groups(ms[1..])
  }

  /** The turn one group becomes. */
  function GroupTurn(g: seq<AiMessage>): Turn {
    Turn(if g != [] && g[0].role.Assistant? then AssistantTurn else UserTurn, MessageBlocks(g))
  }

  /** One turn per group, with the blocks of its messages. */
  function TurnsOf(g: seq<seq<AiMessage>>): (r: seq<Turn>)
    ensures |r| == |g|
  {
    if g == [] then []
    else [GroupTurn(g[0])] + TurnsOf(g[1..])
  }

  ghost predicate AllTools(ts: seq<AiMessage>) {
    forall i :: 0 <= i < |ts| ==> ts[i].role.Tool?
  }

  lemma {:induction false} GroupsOfTools(ts: seq<AiMessage>, rest: seq<AiMessage>)
    requires AllTools(ts) && ts != [] && (rest == [] || !rest[0].role.Tool?)
    ensures Groups(ts + rest) == [ts] + Groups(rest)
    decreases |ts|
  {
    var ms := ts + rest;
    assert ms[1..] == ts[1..] + rest;
    if |ts| == 1 {
      assert ts == [ms[0]] && ts[1..] + rest == rest;
    } else {
      assert ms[1] == ts[1];
      GroupsOfTools(ts[1..], rest);
      assert ([ts[1..]] + Groups(rest))[1..] == Groups(rest);
      assert [ms[0]] + ts[1..] == ts;
    }
  }

  lemma {:induction false} ToolBlocks(ts: seq<AiMessage>, m: AiMessage)
    ensures MessageBlocks(ts + [m]) == MessageBlocks(ts) + BlocksOf(m)
    decreases |ts|
  {
    if ts == [] {
      assert ts + [m] == [m] && MessageBlocks([m][1..]) == [];
    } else {
      assert (ts + [m])[1..] == ts[1..] + [m];
      ToolBlocks(ts[1..], m);
    }
  }

  lemma ToolBlocksNotEmpty(ts: seq<AiMessage>)
    requires AllTools(ts) && ts != []
    ensures MessageBlocks(ts) != []
  {
    assert ts[0].role.Tool?;
  }

  lemma TurnsOfCons(g: seq<AiMessage>, rest: seq<seq<AiMessage>>)
    ensures TurnsOf([g] + rest) == [GroupTurn(g)] + TurnsOf(rest)
  {
    assert ([g] + rest)[1..] == rest;
  }

  lemma SpokenTurn(m: AiMessage, rest: seq<AiMessage>)
    requires m.role.User? || m.role.Assistant?
    ensures TurnsOf(Groups([m] + rest)) == [TurnOf(m)] + TurnsOf(Groups(rest))
  {
    var tail := [m] + rest;
    assert tail[1..] == rest;
    assert Groups(tail) == [[m]] + Groups(rest);
    TurnsOfCons([m], Groups(rest));
    assert MessageBlocks([m][1..]) == [] && BlocksOf(m) + [] == BlocksOf(m);
  }

  lemma ToolsTurn(ts: seq<AiMessage>, rest: seq<AiMessage>)
    requires AllTools(ts) && (rest == [] || !rest[0].role.Tool?)
    ensures TurnsOf(Groups(ts + rest)) == FlushTools(MessageBlocks(ts)) + TurnsOf(Groups(rest))
  {
    if ts == [] {
      assert ts + rest == rest && FlushTools([]) + TurnsOf(Groups(rest)) == TurnsOf(Groups(rest));
    } else {
      GroupsOfTools(ts, rest);
      ToolBlocksNotEmpty(ts);
      TurnsOfCons(ts, Groups(rest));
      assert ts[0].role.Tool?;
    }
  }

  /** The turns of pending tool messages followed by a user or assistant message and the rest. */
  lemma GroupedTurn(ts: seq<AiMessage>, m: AiMessage, rest: seq<AiMessage>)
    requires AllTools(ts) && (m.role.User? || m.role.Assistant?)
    ensures TurnsOf(Groups(ts + ([m] + rest))) == FlushTools(MessageBlocks(ts)) + [TurnOf(m)] + TurnsOf(Groups(rest))
  {
    ToolsTurn(ts, [m] + rest);
    SpokenTurn(m, rest);
    Regroup(FlushTools(MessageBlocks(ts)), [TurnOf(m)], TurnsOf(Groups(rest)));
  }

  /** The turns translated so far are those of the pending tool messages and the spoken rest. */
  ghost predicate GroupsRight(ms: seq<AiMessage>, ts: seq<AiMessage>) {
    Translate(ms, MessageBlocks(ts)).Ok? ==>
      Translate(ms, MessageBlocks(ts)).value == TurnsOf(Groups(ts + Spoken(ms)))
  }

  lemma GroupsRightAtEnd(ts: seq<AiMessage>)
    requires AllTools(ts)
    ensures GroupsRight([], ts)
  {
    ToolsTurn(ts, []);
    assert FlushTools(MessageBlocks(ts)) + [] == FlushTools(MessageBlocks(ts));
  }

  lemma GroupsRightTool(ms: seq<AiMessage>, ts: seq<AiMessage>)
    requires ms != [] && ms[0].role.Tool? && Acceptable(ms[0])
    requires GroupsRight(ms[1..], ts + [ms[0]])
    ensures GroupsRight(ms, ts)
  {
    assert Translate(ms, MessageBlocks(ts)) == Translate(ms[1..], MessageBlocks(ts + [ms[0]])) by {
      ToolBlocks(ts, ms[0]);
      ResumeStep([], MessageBlocks(ts), ms);
    }
    SpokenTail(ms);
    Regroup(ts, [ms[0]], Spoken(ms[1..]));
  }

  lemma GroupsRightSpoken(ms: seq<AiMessage>, ts: seq<AiMessage>)
    requires AllTools(ts)
    requires ms != [] && (ms[0].role.User? || ms[0].role.Assistant?) && Acceptable(ms[0])
    requires GroupsRight(ms[1..], [])
    ensures GroupsRight(ms, ts)
  {
    SpokenTail(ms);
    assert [] + Spoken(ms[1..]) == Spoken(ms[1..]);
    GroupedTurn(ts, ms[0], Spoken(ms[1..]));
  }

  lemma {:induction false} TranslateGroups(ms: seq<AiMessage>, ts: seq<AiMessage>)
    requires AllTools(ts)
    ensures GroupsRight(ms, ts)
    decreases |ms|
  {
    if ms == [] {
      GroupsRightAtEnd(ts);
    } else if Acceptable(ms[0]) {
      match ms[0].role
      case System =>
        SpokenTail(ms);
        TranslateGroups(ms[1..], ts);
      case Tool =>
        TranslateGroups(ms[1..], ts + [ms[0]]);
        GroupsRightTool(ms, ts);
      case _ =>
        TranslateGroups(ms[1..], []);
        GroupsRightSpoken(ms, ts);
    }
  }

  /** Every run of tool messages becomes one user turn, and every other spoken message a turn of its own. */
  lemma EachToolRunIsOneTurn(ms: seq<AiMessage>)
    requires TranslateRequest(ms, false).Ok?
    ensures TranslateRequest(ms, false).value == TurnsOf(Groups(Spoken(ms)))
  {
    TranslateGroups(ms, []);
    assert [] + Spoken(ms) == Spoken(ms);
  }

  /** How the groups of a conversation come from those of its tail. */
  lemma GroupsCons(m: AiMessage, rest: seq<AiMessage>)
    ensures rest == [] || !(m.role.Tool? && rest[0].role.Tool?) ==>
              TurnsOf(Groups([m] + rest)) == [GroupTurn([m])] + TurnsOf(Groups(rest))
    ensures rest != [] && m.role.Tool? && rest[0].role.Tool? ==>
              TurnsOf(Groups([m] + rest))
              == [GroupTurn([m] + Groups(rest)[0])] + TurnsOf(Groups(rest)[1..])
  {
    var ms := [m] + rest;
    assert ms[1..] == rest;
    if rest != [] && m.role.Tool? && rest[0].role.Tool? {
      TurnsOfCons([m] + Groups(rest)[0], Groups(rest)[1..]);
    } else {
      TurnsOfCons([m], Groups(rest));
    }
  }

  /** The first turn has the first message's role. */
  lemma FirstTurn(ms: seq<AiMessage>)
    requires ms != []
    ensures TurnsOf(Groups(ms)) != []
    ensures TurnsOf(Groups(ms))[0].role == (if ms[0].role.Assistant? then AssistantTurn else UserTurn)
  { }

  lemma {:induction false} GroupsAlternate(ms: seq<AiMessage>)
    ensures Alternates(TurnsOf(Groups(ms))) <==> AllFollow(ms)
    decreases |ms|
  {
    if ms != [] {
      var m, rest := ms[0], ms[1..];
      GroupsAlternate(rest);
      assert ms == [m] + rest;
      AllFollowCons(m, rest);
      GroupsCons(m, rest);
      if rest == [] {
        AlternatesCons(GroupTurn([m]), TurnsOf(Groups(rest)));
      } else {
        FirstTurn(rest);
        JoinAlternates(m, rest);
      }
    }
  }

  lemma JoinAlternates(m: AiMessage, rest: seq<AiMessage>)
    requires rest != []
    ensures Alternates(TurnsOf(Groups([m] + rest))) <==> Alternates(TurnsOf(Groups(rest))) && Follows(m, rest[0])
  {
    GroupsCons(m, rest);
    FirstTurn(rest);
    if m.role.Tool? && rest[0].role.Tool? {
      var g := Groups(rest);
      assert [g[0]] + g[1..] == g;
      TurnsOfCons(g[0], g[1..]);
      AlternatesCons(GroupTurn([m] + g[0]), TurnsOf(g[1..]));
      AlternatesCons(GroupTurn(g[0]), TurnsOf(g[1..]));
    } else {
      AlternatesCons(GroupTurn([m]), TurnsOf(Groups(rest)));
    }
  }

  /**
   The turns alternate strictly between user and assistant exactly when, leaving out system messages, an
   assistant message never follows an assistant message and a user message only follows an assistant message
   (and tool results follow tool results or an assistant message).
   */
  lemma AlternationIff(ms: seq<AiMessage>)
    requires TranslateRequest(ms, false).Ok?
    ensures Alternates(TranslateRequest(ms, false).value) <==> AllFollow(Spoken(ms))
  {
    EachToolRunIsOneTurn(ms);
    GroupsAlternate(Spoken(ms));
  }

  /** User (Assistant Tool+)* [Assistant], as the roles a message may have after the one before it. */
  ghost predicate IsTranscript(ms: seq<AiMessage>) {
    && ms != [] && ms[0].role.User?
    && forall i :: 0 <= i < |ms| - 1 ==>
         if ms[i].role.Assistant? then ms[i + 1].role.Tool?
         else ms[i + 1].role.Assistant? || (ms[i].role.Tool? && ms[i + 1].role.Tool?)
  }

  /** A tool-calling transcript alternates strictly, with or without cache points. */
  lemma TranscriptAlternates(ms: seq<AiMessage>, caching: bool)
    requires IsTranscript(Spoken(ms)) && TranslateRequest(ms, caching).Ok?
    ensures Alternates(TranslateRequest(ms, caching).value)
  {
    forall i | 0 <= i < |Spoken(ms)| - 1 ensures Follows(Spoken(ms)[i], Spoken(ms)[i + 1]) { }
    AlternationIff(ms);
    var turns := TranslateRequest(ms, false).value;
    forall i | 0 <= i < |turns| - 1
      ensures WithCachePoint(turns)[i].role != WithCachePoint(turns)[i + 1].role
    {
      assert turns[i].role != turns[i + 1].role;
    }
  }

  // ---------------------------------------------------------------- who said what

  /** What a conversation consists of, told without the blocks and turns of the API. */
  datatype Said =
    | UserSaid(text: string)
    | ModelSaid(text: string)
    | ModelCalled(call: ToolCall)
    | ToolAnswered(id: string, text: string)

  function CallsSaid(calls: seq<ToolCall>): (r: seq<Said>)
    ensures |r| == |calls|
  {
    seq(|calls|, i requires 0 <= i < |calls| => ModelCalled(calls[i]))
  }

  /** A user without words says nothing, a tool without an answer gives an empty object; system words go elsewhere. */
  function SaidBy(m: AiMessage): seq<Said> {
    match m.role
    case System => []
    case User => [UserSaid(if m.content.Some? then m.content.value else "")]
    case Assistant =>
      (if m.content.Some? then [ModelSaid(m.content.value)] else [])
      + (if m.toolCalls.Some? then CallsSaid(m.toolCalls.value) else [])
    case Tool =>
      [ToolAnswered(if m.toolCallId.Some? then m.toolCallId.value else "",
                    if m.content.Some? then m.content.value else "{}")]
  }

  function Conversation(ms: seq<AiMessage>): seq<Said> {
    if ms == [] then [] else SaidBy(ms[0]) + Conversation(ms[1..])
  }

  /** What the API is told by one block of a turn. */
  function Heard(role: TurnRole, b: Block): seq<Said> {
    match b
    case Text(t) => [if role == UserTurn then UserSaid(t) else ModelSaid(t)]
    case ToolUse(id, name, input) => [ModelCalled(ToolCall(id, name, DocumentToJson(input)))]
    case ToolResult(id, t) => [ToolAnswered(id, t)]
    case CachePoint => []
  }

  function HeardBlocks(role: TurnRole, blocks: seq<Block>): seq<Said> {
    if blocks == [] then [] else HeardBlocks(role, blocks[..|blocks| - 1]) + Heard(role, Last(blocks))
  }

  function HeardTurns(turns: seq<Turn>): seq<Said> {
    if turns == [] then [] else HeardBlocks(turns[0].role, turns[0].blocks) + HeardTurns(turns[1..])
  }

  lemma {:induction false} HeardBlocksAppend(role: TurnRole, a: seq<Block>, b: seq<Block>)
    ensures HeardBlocks(role, a + b) == HeardBlocks(role, a) + HeardBlocks(role, b)
    decreases |b|
  {
    if b == [] {
      assert a + b == a && HeardBlocks(role, a) + [] == HeardBlocks(role, a);
    } else {
      var front := b[..|b| - 1];
      HeardBlocksAppend(role, a, front);
      assert (a + b)[..|a + b| - 1] == a + front;
      Regroup(HeardBlocks(role, a), HeardBlocks(role, front), Heard(role, Last(b)));
    }
  }

  lemma {:induction false} HeardTurnsAppend(a: seq<Turn>, b: seq<Turn>)
    ensures HeardTurns(a + b) == HeardTurns(a) + HeardTurns(b)
    decreases |a|
  {
    if a == [] {
      assert a + b == b && [] + HeardTurns(b) == HeardTurns(b);
    } else {
      HeardTurnsAppend(a[1..], b);
      assert (a + b)[1..] == a[1..] + b;
      Regroup(HeardBlocks(a[0].role, a[0].blocks), HeardTurns(a[1..]), HeardTurns(b));
    }
  }

  lemma OneTurnHeard(turn: Turn)
    ensures HeardTurns([turn]) == HeardBlocks(turn.role, turn.blocks)
  {
    assert [turn][1..] == [] && HeardBlocks(turn.role, turn.blocks) + [] == HeardBlocks(turn.role, turn.blocks);
  }

  lemma OneBlockHeard(role: TurnRole, b: Block)
    ensures HeardBlocks(role, [b]) == Heard(role, b)
  {
    assert [b][..0] == [] && [] + Heard(role, b) == Heard(role, b);
  }

  /** The arguments of all calls are JSON values whose numbers are finite. */
  ghost predicate ArgumentsOk(ms: seq<AiMessage>) {
    forall i :: 0 <= i < |ms| ==> forall c :: c in ms[i].toolCalls.GetOr([]) ==> JsonOk(c.arguments)
  }

  lemma {:induction false} CallsHeard(calls: seq<ToolCall>)
    requires forall c :: c in calls ==> JsonOk(c.arguments)
    ensures HeardBlocks(AssistantTurn, CallBlocks(calls)) == CallsSaid(calls)
    decreases |calls|
  {
    if calls != [] {
      var front, c := calls[..|calls| - 1], calls[|calls| - 1];
      CallsHeard(front);
      assert CallBlocks(calls)[..|calls| - 1] == CallBlocks(front);
      JsonSurvives(c.arguments);
      assert Heard(AssistantTurn, Last(CallBlocks(calls))) == [ModelCalled(c)];
      assert CallsSaid(calls) == CallsSaid(front) + [ModelCalled(c)];
    }
  }

  /** The turn role a message's blocks are sent under. */
  function RoleOf(m: AiMessage): TurnRole {
    if m.role.Assistant? then AssistantTurn else UserTurn
  }

  lemma MessageHeard(m: AiMessage)
    requires Acceptable(m) && forall c :: c in m.toolCalls.GetOr([]) ==> JsonOk(c.arguments)
    ensures HeardBlocks(RoleOf(m), BlocksOf(m)) == SaidBy(m)
  {
    match m.role
    case System =>
    case User => OneBlockHeard(UserTurn, Text(m.content.GetOr("")));
    case Tool => OneBlockHeard(UserTurn, ToolResult(m.toolCallId.GetOr(""), m.content.GetOr("{}")));
    case Assistant =>
      var calls := m.toolCalls.GetOr([]);
      CallsHeard(calls);
      if m.content.Some? {
        HeardBlocksAppend(AssistantTurn, [Text(m.content.value)], CallBlocks(calls));
        OneBlockHeard(AssistantTurn, Text(m.content.value));
      } else {
        EmptyFirst(CallBlocks(calls));
        EmptyFirst(CallsSaid(calls));
      }
  }

  lemma FlushHeard(pending: seq<Block>)
    ensures HeardTurns(FlushTools(pending)) == HeardBlocks(UserTurn, pending)
  {
    if pending != [] { OneTurnHeard(Turn(UserTurn, pending)); }
  }

  lemma SpokenHeard(pending: seq<Block>, m: AiMessage, rest: seq<Turn>)
    requires m.role.User? || m.role.Assistant?
    ensures HeardTurns(FlushTools(pending) + [TurnOf(m)] + rest)
         == HeardBlocks(UserTurn, pending) + (HeardBlocks(RoleOf(m), BlocksOf(m)) + HeardTurns(rest))
  {
    FlushHeard(pending);
    OneTurnHeard(TurnOf(m));
    HeardTurnsAppend(FlushTools(pending), [TurnOf(m)]);
    HeardTurnsAppend(FlushTools(pending) + [TurnOf(m)], rest);
    Regroup(HeardBlocks(UserTurn, pending), HeardBlocks(RoleOf(m), BlocksOf(m)), HeardTurns(rest));
  }

  lemma {:induction false} TranslationHeard(ms: seq<AiMessage>, pending: seq<Block>)
    requires ArgumentsOk(ms) && Translate(ms, pending).Ok?
    ensures HeardTurns(Translate(ms, pending).value) == HeardBlocks(UserTurn, pending) + Conversation(ms)
    decreases |ms|
  {
    if ms == [] {
      FlushHeard(pending);
      assert HeardBlocks(UserTurn, pending) + [] == HeardBlocks(UserTurn, pending);
    } else {
      var m := ms[0];
      assert ArgumentsOk(ms[1..]) by {
        forall i, c | 0 <= i < |ms[1..]| && c in ms[1..][i].toolCalls.GetOr([]) ensures JsonOk(c.arguments) {
          assert c in ms[i + 1].toolCalls.GetOr([]);
        }
      }
      MessageHeard(m);
      match m.role
      case System =>
        TranslationHeard(ms[1..], pending);
        EmptyFirst(Conversation(ms[1..]));
      case Tool =>
        TranslationHeard(ms[1..], pending + BlocksOf(m));
        HeardBlocksAppend(UserTurn, pending, BlocksOf(m));
        Regroup(HeardBlocks(UserTurn, pending), SaidBy(m), Conversation(ms[1..]));
      case _ =>
        TranslationHeard(ms[1..], []);
        EmptyFirst(Conversation(ms[1..]));
        SpokenHeard(pending, m, Translate(ms[1..], []).value);
    }
  }

  lemma CachePointUnheard(turns: seq<Turn>)
    ensures HeardTurns(WithCachePoint(turns)) == HeardTurns(turns)
  {
    if turns != [] {
      var front, last := turns[..|turns| - 1], turns[|turns| - 1];
      var marked := Turn(last.role, last.blocks + [CachePoint]);
      assert turns == front + [last] && WithCachePoint(turns) == front + [marked];
      HeardTurnsAppend(front, [last]);
      HeardTurnsAppend(front, [marked]);
      OneTurnHeard(last);
      OneTurnHeard(marked);
      HeardBlocksAppend(last.role, last.blocks, [CachePoint]);
      OneBlockHeard(last.role, CachePoint);
      assert HeardBlocks(last.role, last.blocks) + [] == HeardBlocks(last.role, last.blocks);
    }
  }

  /** The API can be told of the message: a model that says or calls something, a tool answer that names its call. */
  predicate CanBeTold(m: AiMessage) {
    match m.role
    case Assistant => m.content.Some? || (m.toolCalls.Some? && m.toolCalls.value != [])
    case Tool => m.toolCallId.Some?
    case System | User => true
  }

  /**
   Of every conversation that can be told, the API hears exactly what was said, by whom, and in order, with caching or
   without; and the request is refused exactly when some message cannot be told.
   */
  lemma ConversationSurvives(ms: seq<AiMessage>, caching: bool)
    requires ArgumentsOk(ms)
    ensures TranslateRequest(ms, caching).Ok? <==> forall i :: 0 <= i < |ms| ==> CanBeTold(ms[i])
    ensures TranslateRequest(ms, caching).Ok? ==> HeardTurns(TranslateRequest(ms, caching).value) == Conversation(ms)
  {
    BlocksInOrder(ms, []);
    forall i | 0 <= i < |ms| ensures Acceptable(ms[i]) <==> CanBeTold(ms[i]) { ToldIffAcceptable(ms[i]); }
    if Translate(ms, []).Ok? {
      TranslationHeard(ms, []);
      EmptyFirst(Conversation(ms));
      CachePointUnheard(Translate(ms, []).value);
    }
  }

  lemma ToldIffAcceptable(m: AiMessage)
    ensures Acceptable(m) <==> CanBeTold(m)
  {
    if m.role.Assistant? { assert |BlocksOf(m)| == (if m.content.Some? then 1 else 0) + |m.toolCalls.GetOr([])|; }
  }

  /** With caching the last turn, and no other, has a cache point after its blocks. */
  lemma LastTurnIsCached(ms: seq<AiMessage>)
    requires TranslateRequest(ms, false).Ok?
    ensures TranslateRequest(ms, true).Ok?
    ensures var plain, cached := TranslateRequest(ms, false).value, TranslateRequest(ms, true).value;
            && |cached| == |plain|
            && forall i :: 0 <= i < |plain| ==>
                 cached[i].role == plain[i].role
                 && cached[i].blocks == plain[i].blocks + (if i == |plain| - 1 then [CachePoint] else [])
  {
  }

  /** The texts of an answer are put together as they are, with nothing between them. */
  lemma {:induction false} AnswerText(a: seq<string>, b: seq<string>)
    ensures Join(a + b) == Join(a) + Join(b)
    decreases |a|
  {
    if a == [] {
      assert a + b == b;
    } else {
      AnswerText(a[1..], b);
      assert (a + b)[1..] == a[1..] + b;
    }
  }
}
