/** Model identifiers of the form `provider:model`: resolution through the
    alias table, parsing with `ModelId.from_str`, printing with `str()`, and
    the text of the `InvalidModelId` error. */
module ModelIds {
  import opened Wrappers
  import PyStr

  /** The separator between the provider ID and the model name. */
  const SEP: char := ':'

  /** The table of model-ID aliases: alias -> full model ID. Its contents are
      a parameter of the model. */
  type AliasTable = map<string, string>

  /** A parsed model ID. Objects are meant to come from FromStr. */
  datatype ModelId = ModelId(providerId: string, modelName: string)

  /** The ways parsing fails. `InvalidModelId` carries the argument the
      exception is constructed with; `UnpackError` is the ValueError Python
      raises when `split(":", 1)` yields one part where two are unpacked. */
  datatype ParseError =
    | InvalidModelId(message: string)
    | UnpackError

  const INVALID_PREFIX: string := "Invalid model ID: "
  const UNPACK_TEXT: string := "not enough values to unpack (expected 2, got 1)"

  /** `str(m)`: the provider ID, a colon, then the model name. */
  function ToString(m: ModelId): (s: string)
    ensures SEP in s
    ensures |s| == |m.providerId| + 1 + |m.modelName|
  {
    m.providerId + [SEP] + m.modelName
  }

  /** `ALIASES.get(s, None) or s`: an alias key with a non-empty target is
      replaced by its target; any other string (including a key whose target
      is the empty, falsy string) stands for itself. */
  function Resolve(aliases: AliasTable, s: string): (r: string)
    ensures s in aliases && aliases[s] != "" ==> r == aliases[s]
    ensures r == s || (s in aliases && aliases[s] == r)
    ensures r == "" ==> s == ""
  {
    if s in aliases && aliases[s] != "" then aliases[s] else s
  }

  /** `ModelId.from_str(s)`. The colon test is made on the input `s`, while
      the split is made on the resolved string. */
  function FromStr(aliases: AliasTable, s: string): (r: Result<ModelId, ParseError>)
    ensures r.Success? ==> ToString(r.value) == Resolve(aliases, s)
    ensures r.Success? ==> SEP !in r.value.providerId
  {
    var resolved := Resolve(aliases, s);
    if SEP !in s then
      Failure(InvalidModelId(resolved))
    else
      var parts := PyStr.SplitOnce(resolved, SEP);
      if |parts| != 2 then Failure(UnpackError)
      else Success(ModelId(parts[0], parts[1]))
  }

  /** The text of an `InvalidModelId` exception built from `message`. */
  function InvalidModelIdText(message: string): (text: string)
    ensures |text| == |INVALID_PREFIX| + |message| + 1
  {
    INVALID_PREFIX + message + "."
  }

  /** The text of each parse error, as `str(e)` gives it. */
  function ErrorText(e: ParseError): (text: string)
    ensures e.InvalidModelId? ==> InvalidModelIdArgument(text) == Some(e.message)
    ensures e.UnpackError? ==> text == UNPACK_TEXT
  {
    match e
    case InvalidModelId(message) =>
      InvalidModelIdTextRoundTrip(message);
      InvalidModelIdText(message)
    case UnpackError => UNPACK_TEXT
  }

  /** Recovers the message from an `InvalidModelId` text, or None when the
      text does not have that shape. */
  function InvalidModelIdArgument(text: string): (r: Option<string>)
    ensures r.Some? ==> |r.value| + |INVALID_PREFIX| + 1 == |text|
  {
    if |text| > |INVALID_PREFIX| && text[..|INVALID_PREFIX|] == INVALID_PREFIX && text[|text| - 1] == '.'
    then Some(text[|INVALID_PREFIX|..|text| - 1])
    else None
  }

  // ---------------------------------------------------------------------
  // The error message

  /** The message text determines the argument it was built from. */
  lemma InvalidModelIdTextRoundTrip(message: string)
    ensures InvalidModelIdArgument(InvalidModelIdText(message)) == Some(message)
  {
  }

  /** Two different arguments never give the same message. */
  lemma InvalidModelIdTextInjective(a: string, b: string)
    ensures InvalidModelIdText(a) == InvalidModelIdText(b) <==> a == b
  {
    if InvalidModelIdText(a) == InvalidModelIdText(b) {
      InvalidModelIdTextRoundTrip(a);
      InvalidModelIdTextRoundTrip(b);
    }
  }

  /** An input without a colon is rejected, and the message names the
      RESOLVED string, not the raw input. */
  lemma RejectionMessageCarriesResolved(aliases: AliasTable, s: string)
    requires SEP !in s
    ensures FromStr(aliases, s).Failure?
    ensures InvalidModelIdArgument(ErrorText(FromStr(aliases, s).error)) == Some(Resolve(aliases, s))
  {
  }

  // ---------------------------------------------------------------------
  // Parsing

  /** A successful parse splits the resolved string at its FIRST colon: the
      provider ID is everything before it and the model name everything
      after it, colons and slashes included. */
  lemma FromStrSplitsAtFirstColon(aliases: AliasTable, s: string)
    requires FromStr(aliases, s).Success?
    ensures var m := FromStr(aliases, s).value;
            PyStr.FirstIndex(Resolve(aliases, s), SEP) == Some(|m.providerId|)
            && m.providerId == Resolve(aliases, s)[..|m.providerId|]
            && m.modelName == Resolve(aliases, s)[|m.providerId| + 1..]
  {
  }

  /** `from_str` fails with InvalidModelId exactly when the input has no
      colon; this holds for an alias key whose target has one. */
  lemma InvalidIffNoColon(aliases: AliasTable, s: string)
    ensures FromStr(aliases, s).Failure? && FromStr(aliases, s).error.InvalidModelId?
            <==> SEP !in s
    ensures SEP !in s ==> FromStr(aliases, s) == Failure(InvalidModelId(Resolve(aliases, s)))
  {
  }

  /** The unpack fails exactly when the input has a colon but resolves, as an
      alias key, to a target without one. */
  lemma UnpackErrorIff(aliases: AliasTable, s: string)
    ensures FromStr(aliases, s) == Failure(UnpackError)
            <==> SEP in s && s in aliases && aliases[s] != "" && SEP !in aliases[s]
  {
  }

  /** `from_str` succeeds exactly when both the input and the string it
      resolves to contain a colon. */
  lemma SuccessIff(aliases: AliasTable, s: string)
    ensures FromStr(aliases, s).Success? <==> SEP in s && SEP in Resolve(aliases, s)
  {
  }

  /** An alias key with a non-empty target takes its fields from the
      target's split, exactly as the target parsed on its own would. */
  lemma AliasKeyParsesAsTarget(aliases: AliasTable, s: string)
    requires SEP in s && s in aliases && aliases[s] != "" && SEP in aliases[s]
    ensures FromStr(aliases, s) == FromStr(map[], aliases[s])
  {
  }

  /** Any other input takes its fields from its own split. */
  lemma NonAliasParsesAsItself(aliases: AliasTable, s: string)
    requires s !in aliases || aliases[s] == ""
    ensures FromStr(aliases, s) == FromStr(map[], s)
  {
  }

  // ---------------------------------------------------------------------
  // Round trips

  /** String -> ModelId -> string gives back an input that has a colon and is
      not an alias key. */
  lemma RoundTripFromString(aliases: AliasTable, s: string)
    requires SEP in s
    requires s !in aliases || aliases[s] == ""
    ensures FromStr(aliases, s).Success?
    ensures ToString(FromStr(aliases, s).value) == s
  {
  }

  /** ModelId -> string -> ModelId gives back a model ID whose provider has no
      colon and whose printed form is not an alias key. */
  lemma RoundTripFromValue(aliases: AliasTable, m: ModelId)
    requires SEP !in m.providerId
    requires ToString(m) !in aliases || aliases[ToString(m)] == ""
    ensures FromStr(aliases, ToString(m)) == Success(m)
  {
    PyStr.SplitOnceOfJoined(m.providerId, SEP, m.modelName);
  }

  /** Conversely to FromStrSplitsAtFirstColon: a string that is not an alias
      key and whose first colon is at `k` parses into the text before and
      after position `k`. */
  lemma ParsesAtColon(aliases: AliasTable, s: string, k: nat)
    requires k < |s| && s[k] == SEP && SEP !in s[..k]
    requires s !in aliases || aliases[s] == ""
    ensures FromStr(aliases, s) == Success(ModelId(s[..k], s[k + 1..]))
  {
  }

  /** The cases of `test_simple_model_ids`, each for any alias table that
      does not have the input as a key. */
  lemma SimpleModelIdOpenAI(aliases: AliasTable)
    requires "openai:gpt4" !in aliases
    ensures FromStr(aliases, "openai:gpt4")
            == Success(ModelId("openai", "gpt4"))
  {
    var s := "openai:gpt4";
    assert s[..6] == "openai" && s[7..] == "gpt4";
    ParsesAtColon(aliases, s, 6);
  }

  lemma SimpleModelIdBedrock(aliases: AliasTable)
    requires "bedrock-chat:anthropic.claude-instant-v1" !in aliases
    ensures FromStr(aliases, "bedrock-chat:anthropic.claude-instant-v1")
            == Success(ModelId("bedrock-chat", "anthropic.claude-instant-v1"))
  {
    var s := "bedrock-chat:anthropic.claude-instant-v1";
    assert s[..12] == "bedrock-chat" && s[13..] == "anthropic.claude-instant-v1";
    ParsesAtColon(aliases, s, 12);
  }

  /** The model name keeps its slash. */
  lemma SimpleModelIdTogether(aliases: AliasTable)
    requires "togetherai:NousResearch/Nous-Hermes-Llama2-70b" !in aliases
    ensures FromStr(aliases, "togetherai:NousResearch/Nous-Hermes-Llama2-70b")
            == Success(ModelId("togetherai", "NousResearch/Nous-Hermes-Llama2-70b"))
  {
    var s := "togetherai:NousResearch/Nous-Hermes-Llama2-70b";
    assert s[10] == SEP;
    assert s[..10] == "togetherai" by {
      assert forall i | 0 <= i < 10 :: s[i] == "togetherai"[i];
    }
    assert SEP !in s[..10];
    assert s[11..] == "NousResearch/Nous-Hermes-Llama2-70b" by {
      assert forall i | 0 <= i < |s| - 11 :: s[11..][i] == "NousResearch/Nous-Hermes-Llama2-70b"[i];
    }
    ParsesAtColon(aliases, s, 10);
  }

  // ---------------------------------------------------------------------
  // The colon test on the raw input

  /** As written, an alias key without a colon is rejected even though its
      target is a well-formed model ID; the message then shows that target. */
  lemma AliasKeyWithoutColonRejected(aliases: AliasTable, s: string)
    requires s in aliases && SEP !in s && SEP in aliases[s]
    ensures FromStr(aliases, s) == Failure(InvalidModelId(aliases[s]))
    ensures FromStr(map[], aliases[s]).Success?
  {
  }

  /** A concrete instance: with the alias "gpt4" for "openai-chat:gpt-4",
      the input "gpt4" is rejected and the error names the target. */
  lemma Gpt4AliasRejected(aliases: AliasTable)
    requires aliases == map["gpt4" := "openai-chat:gpt-4"]
    ensures FromStr(aliases, "gpt4") == Failure(InvalidModelId("openai-chat:gpt-4"))
  {
    var key, target := "gpt4", "openai-chat:gpt-4";
    assert SEP !in key;
    assert target[11] == SEP;
    AliasKeyWithoutColonRejected(aliases, key);
  }

  /** `from_str` with the colon test made on the resolved string, so that an
      alias key resolves to its target whatever its own spelling. */
  function FromStrResolved(aliases: AliasTable, s: string): (r: Result<ModelId, ParseError>)
    ensures r.Success? ==> ToString(r.value) == Resolve(aliases, s)
    ensures r.Success? ==> SEP !in r.value.providerId
  {
    var resolved := Resolve(aliases, s);
    if SEP !in resolved then
      Failure(InvalidModelId(resolved))
    else
      var parts := PyStr.SplitOnce(resolved, SEP);
      Success(ModelId(parts[0], parts[1]))
  }

  /** With the test on the resolved string, parsing succeeds exactly when
      the resolved string has a colon, never fails on the unpack, and an
      alias key always parses as its target. */
  lemma ResolvedAliasAccepted(aliases: AliasTable, s: string)
    ensures FromStrResolved(aliases, s).Success? <==> SEP in Resolve(aliases, s)
    ensures FromStrResolved(aliases, s) != Failure(UnpackError)
    ensures s in aliases && aliases[s] != "" ==>
              FromStrResolved(aliases, s) == FromStrResolved(map[], aliases[s])
  {
  }

  /** The correction changes nothing for inputs that are not alias keys. */
  lemma ResolvedAgreesOnNonAliases(aliases: AliasTable, s: string)
    requires s !in aliases || aliases[s] == ""
    ensures FromStrResolved(aliases, s) == FromStr(aliases, s)
  {
  }
}
