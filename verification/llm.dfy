/** The reply handling of GroqClient.Analyze (internal/analyzer/llm.go): the status
    and choices checks, the clean-up of the first choice's content, and its
    decoding as an analysis. The HTTP exchange itself is not modelled; its outcome
    is given. */
module Llm {
  import opened Results
  import opened Strings
  import opened Models

  /** The status of a successful exchange (http.StatusOK). */
  const StatusOK: int := 200

  /** The decimal text of an integer, as %d prints it. */
  function IntToString(n: int): (r: string)
    ensures n >= 0 ==> r == NatToString(n)
    ensures n < 0 ==> r == "-" + NatToString(-n)
  {
    if n >= 0 then NatToString(n) else "-" + NatToString(-n)
  }

  /** Strip a markdown code fence the model may have wrapped its JSON in: trim,
      drop a leading "```json", else a leading "```", drop a trailing "```", trim. */
  function Clean(content: string): (r: string)
    ensures Trimmed(r)
    ensures var t := TrimSpace(content);
      !HasPrefix(t, "```") && !HasSuffix(t, "```") ==> r == t
  {
    var c := TrimSpace(content);
    var c := TrimPrefix(c, "```json");
    var c := TrimPrefix(c, "```");
    var c := TrimSuffix(c, "```");
    TrimSpace(c)
  }

  /** Cleaning is idempotent on texts that carry no fence once trimmed. */
  lemma CleanIdempotent(content: string)
    requires !HasPrefix(TrimSpace(content), "```") && !HasSuffix(TrimSpace(content), "```")
    ensures Clean(Clean(content)) == Clean(content)
  {
    TrimSpaceIdempotent(content);
  }

  /** A JSON text wrapped in a "```json" fence, with any whitespace inside the
      fence, comes out as the bare JSON text. */
  lemma CleanJsonFence(ws1: string, json: string, ws2: string)
    requires AllSpace(ws1) && AllSpace(ws2)
    requires Trimmed(json) && |json| > 0 && json[0] != '`'
    ensures Clean("```json" + ws1 + json + ws2 + "```") == json
  {
    var inner := ws1 + json + ws2;
    var s := "```json" + inner + "```";
    assert s == "```json" + ws1 + json + ws2 + "```";
    TrimSpaceOfTrimmed(s);
    assert s[..7] == "```json";
    var c1 := inner + "```";
    assert TrimPrefix(s, "```json") == c1 by {
      assert s == "```json" + c1;
    }
    assert !HasPrefix(c1, "```") by {
      assert c1[0] == if |ws1| > 0 then ws1[0] else json[0];
    }
    assert c1[|c1| - 3..] == "```";
    assert TrimSuffix(c1, "```") == inner;
    TrimSpaceAround(ws1, json, ws2);
  }

  /** The same for a bare "```" fence, when whitespace follows the opening fence. */
  lemma CleanBareFence(ws1: string, json: string, ws2: string)
    requires AllSpace(ws1) && |ws1| > 0 && AllSpace(ws2)
    requires Trimmed(json) && |json| > 0
    ensures Clean("```" + ws1 + json + ws2 + "```") == json
  {
    var inner := ws1 + json + ws2;
    var s := "```" + inner + "```";
    assert s == "```" + ws1 + json + ws2 + "```";
    TrimSpaceOfTrimmed(s);
    assert !HasPrefix(s, "```json") by {
      assert s[3] == ws1[0];
    }
    var c1 := inner + "```";
    assert TrimPrefix(s, "```") == c1 by {
      assert s == "```" + c1;
    }
    assert c1[|c1| - 3..] == "```";
    assert TrimSuffix(c1, "```") == inner;
    TrimSpaceAround(ws1, json, ws2);
  }

  /** The response as far as GroqClient.Analyze reads it: the status, the raw body
      (quoted in the error), and the decoded contents of the choices or the decoder's
      error. */
  datatype Reply = Reply(status: int, body: string, choices: Result<seq<string>>)

  /** The reply handling. `decode` is json.Unmarshal into an analysis. */
  /** The error for content that does not decode: the decoder's message, then the
      content itself. */
  function ParseFailure(e: string, content: string): (r: Result<Analysis>)
    ensures r.Err? && HasPrefix(r.message, "failed to parse analysis JSON: ")
    ensures HasSuffix(r.message, "\nContent: " + content)
  {
    var head := "failed to parse analysis JSON: " + e;
    var tail := "\nContent: " + content;
    assert (head + tail)[|head|..] == tail;
    assert (head + tail)[..31] == "failed to parse analysis JSON: ";
    Err(head + tail)
  }

  function HandleReply(reply: Reply, decode: string -> Result<Analysis>): (r: Result<Analysis>)
    ensures reply.status != StatusOK ==>
      r == Err("groq api error: " + IntToString(reply.status) + " - " + reply.body)
    ensures reply.status == StatusOK && reply.choices.Err? ==> r == Err(reply.choices.message)
    ensures reply.status == StatusOK && reply.choices.Ok? && |reply.choices.value| == 0 ==>
      r == Err("no response from groq")
    ensures r.Ok? <==>
      reply.status == StatusOK && reply.choices.Ok? && |reply.choices.value| > 0
      && decode(Clean(reply.choices.value[0])).Ok?
    ensures r.Ok? ==> r == decode(Clean(reply.choices.value[0]))
  {
    if reply.status != StatusOK then
      Err("groq api error: " + IntToString(reply.status) + " - " + reply.body)
    else match reply.choices
      case Err(e) => Err(e)
      case Ok(choices) =>
        if |choices| == 0 then Err("no response from groq")
        else
          var content := Clean(choices[0]);
          match decode(content)
          case Err(e) => ParseFailure(e, content)
          case Ok(a) => Ok(a)
  }

  /** Only the first choice matters: replies that agree on it are handled alike. */
  lemma OnlyFirstChoice(status: int, body: string, c1: seq<string>, c2: seq<string>,
                        decode: string -> Result<Analysis>)
    requires |c1| > 0 && |c2| > 0 && c1[0] == c2[0]
    ensures HandleReply(Reply(status, body, Ok(c1)), decode) == HandleReply(Reply(status, body, Ok(c2)), decode)
  {
  }

  /** Content that does not decode gives an error that quotes the cleaned content,
      never a partial analysis. */
  lemma UndecodableIsError(reply: Reply, decode: string -> Result<Analysis>)
    requires reply.status == StatusOK && reply.choices.Ok? && |reply.choices.value| > 0
    requires decode(Clean(reply.choices.value[0])).Err?
    ensures HandleReply(reply, decode).Err?
    ensures HasSuffix(HandleReply(reply, decode).message, "\nContent: " + Clean(reply.choices.value[0]))
  {
    var content := Clean(reply.choices.value[0]);
    var e := decode(content).message;
    assert HandleReply(reply, decode) == ParseFailure(e, content);
  }
}
