# Model IDs of jupyter-ai-magics, in Dafny

A model of `ModelId` from `jupyter_ai_magics/model_id.py`. A model ID is a
string of the form `provider:model`. `ModelId.from_str` first replaces the
string through the alias table. It then rejects an input that has no colon,
and otherwise splits the resolved string at its first colon into a provider
ID and a model name. `str()` joins the two fields again with a colon.
`InvalidModelId` formats its message as `Invalid model ID: <message>.`.

Files:

- `wrappers.dfy`: `Option` and `Result`. A `Result` stands for the value
  returned or the exception raised.
- `py_str.dfy`: the Python string operations that the parser uses.
  `FirstIndex` finds the first occurrence of a character. `SplitOnce` is
  `s.split(sep, 1)` with a one-character separator.
- `model_id.dfy`: the `ModelId` datatype, alias resolution (`Resolve`),
  `from_str` (`FromStr`), `__str__` (`ToString`) and the error texts, with
  the lemmas about them.

The alias table is a parameter `aliases: map<string, string>`. Resolution
is `aliases.get(s, None) or s`, so a key whose target is the empty string
falls back to the input. The colon test looks at the input, not at the
resolved string. An input with a colon can resolve to a target with none.
Python then raises a `ValueError` on the two-value unpack, and the model
returns the distinct error `UnpackError` for that case.

## Model

| member | source | states |
|---|---|---|
| `PyStr.FirstIndex` | packages/jupyter-ai-magics/jupyter_ai_magics/model_id.py:26 | None exactly when the character is absent; otherwise an in-range index that holds the character, with no occurrence before it |
| `PyStr.SplitOnce` | packages/jupyter-ai-magics/jupyter_ai_magics/model_id.py:26 | `split(sep, 1)` gives one part (the whole string) exactly when `sep` is absent; otherwise two parts that rebuild the string around a `sep`, the first part free of `sep` |
| `PyStr.SplitOnceOfJoined` | packages/jupyter-ai-magics/jupyter_ai_magics/model_id.py:26 | the decomposition is unique: `head + sep + tail` with no `sep` in `head` splits into exactly `[head, tail]` |
| `PyStr.SplitOnceAtFirstIndex` | packages/jupyter-ai-magics/jupyter_ai_magics/model_id.py:26 | the split is made at the first occurrence of the separator |
| `ModelIds.ToString` | packages/jupyter-ai-magics/jupyter_ai_magics/model_id.py:29-30 | the printed form always contains a colon and is one character longer than the two fields together |
| `ModelIds.Resolve` | packages/jupyter-ai-magics/jupyter_ai_magics/model_id.py:21 | a key with a non-empty target is replaced by that target; otherwise the result is the input; it is empty only when the input is empty |
| `ModelIds.FromStr` | packages/jupyter-ai-magics/jupyter_ai_magics/model_id.py:20-27 | a parsed ID prints back as the resolved string, and its provider ID contains no colon |
| `ModelIds.InvalidModelIdText` | packages/jupyter-ai-magics/jupyter_ai_magics/model_id.py:32-34 | the message is the prefix, the argument and a final period in length |
| `ModelIds.ErrorText` | packages/jupyter-ai-magics/jupyter_ai_magics/model_id.py:32-34 | `str(e)`: for `InvalidModelId` a text from which exactly its argument is read back; for the failed unpack the interpreter's fixed `ValueError` text |
| `ModelIds.InvalidModelIdTextRoundTrip` | packages/jupyter-ai-magics/jupyter_ai_magics/model_id.py:33-34 | the argument can be read back from the message text |
| `ModelIds.InvalidModelIdTextInjective` | packages/jupyter-ai-magics/jupyter_ai_magics/model_id.py:33-34 | two messages are equal if and only if their arguments are |
| `ModelIds.RejectionMessageCarriesResolved` | packages/jupyter-ai-magics/jupyter_ai_magics/model_id.py:21-24 | an input with no colon fails, and the message text carries the resolved string, not the raw input |
| `ModelIds.FromStrSplitsAtFirstColon` | packages/jupyter-ai-magics/jupyter_ai_magics/model_id.py:26-27 | on success the provider ID is the resolved string up to its first colon and the model name is everything after it |
| `ModelIds.ParsesAtColon` | packages/jupyter-ai-magics/jupyter_ai_magics/model_id.py:26-27 | a non-alias string whose first colon is at `k` parses into the text before and after `k` |
| `ModelIds.InvalidIffNoColon` | packages/jupyter-ai-magics/jupyter_ai_magics/model_id.py:23-24 | `InvalidModelId` is raised if and only if the input has no colon, with the resolved string as its argument |
| `ModelIds.UnpackErrorIff` | packages/jupyter-ai-magics/jupyter_ai_magics/model_id.py:21-26 | the unpack fails if and only if the input has a colon and is an alias key with a non-empty target that has none |
| `ModelIds.SuccessIff` | packages/jupyter-ai-magics/jupyter_ai_magics/model_id.py:21-27 | parsing succeeds if and only if both the input and its resolved string contain a colon |
| `ModelIds.AliasKeyParsesAsTarget` | packages/jupyter-ai-magics/jupyter_ai_magics/model_id.py:21-27 | an alias key with a non-empty target takes its fields from the target's split |
| `ModelIds.NonAliasParsesAsItself` | packages/jupyter-ai-magics/jupyter_ai_magics/model_id.py:21-27 | any other input takes its fields from its own split, whatever the table holds |
| `ModelIds.RoundTripFromString` | packages/jupyter-ai-magics/jupyter_ai_magics/model_id.py:26-30 | a non-alias input with a colon parses, and printing the result gives the input back |
| `ModelIds.RoundTripFromValue` | packages/jupyter-ai-magics/jupyter_ai_magics/model_id.py:26-30 | a model ID whose provider has no colon, and whose printed form is not an alias key, parses back to itself |
| `ModelIds.SimpleModelIdOpenAI` | packages/jupyter-ai-magics/jupyter_ai_magics/tests/test_model_id.py:15 | `openai:gpt4` parses to (`openai`, `gpt4`) when it is not an alias key |
| `ModelIds.SimpleModelIdBedrock` | packages/jupyter-ai-magics/jupyter_ai_magics/tests/test_model_id.py:16 | `bedrock-chat:anthropic.claude-instant-v1` parses to (`bedrock-chat`, `anthropic.claude-instant-v1`) when it is not an alias key |
| `ModelIds.SimpleModelIdTogether` | packages/jupyter-ai-magics/jupyter_ai_magics/tests/test_model_id.py:17 | `togetherai:NousResearch/Nous-Hermes-Llama2-70b` parses with the slash kept in the model name when it is not an alias key |
| `ModelIds.AliasKeyWithoutColonRejected` | packages/jupyter-ai-magics/jupyter_ai_magics/model_id.py:21-24 | an alias key with no colon is rejected even though its target parses on its own, and the error names the target |
| `ModelIds.Gpt4AliasRejected` | packages/jupyter-ai-magics/jupyter_ai_magics/model_id.py:21-24 | with `gpt4` aliased to `openai-chat:gpt-4`, the input `gpt4` fails with `InvalidModelId("openai-chat:gpt-4")` |
| `ModelIds.FromStrResolved` | packages/jupyter-ai-magics/jupyter_ai_magics/model_id.py:20-27 | corrected parse that tests the resolved string: a parsed ID prints back as the resolved string, and its provider has no colon |
| `ModelIds.ResolvedAliasAccepted` | packages/jupyter-ai-magics/jupyter_ai_magics/model_id.py:21-27 | the corrected parse succeeds if and only if the resolved string has a colon, never fails on the unpack, and parses an alias key exactly as its target |
| `ModelIds.ResolvedAgreesOnNonAliases` | packages/jupyter-ai-magics/jupyter_ai_magics/model_id.py:21-27 | the correction changes nothing for inputs that are not alias keys |

## Findings

| source | as written | input that shows it | evidently intended | confidence | as-written member | corrected member |
|---|---|---|---|---|---|---|
| packages/jupyter-ai-magics/jupyter_ai_magics/model_id.py:23 | the colon test is made on the raw input, so an alias key without a colon always fails | alias table `{"gpt4": "openai-chat:gpt-4"}` and input `gpt4`: the error is `Invalid model ID: openai-chat:gpt-4.`, which names a well-formed ID | test the resolved string, so that an alias key parses as its target | medium, not executed | `ModelIds.AliasKeyWithoutColonRejected` | `ModelIds.ResolvedAliasAccepted` |

`FromStr` stays the as-written behaviour. Every property in the table is
stated about it, except the last three rows (`FromStrResolved`,
`ResolvedAliasAccepted`, `ResolvedAgreesOnNonAliases`), which are about the
corrected parse. `FromStrResolved` is the corrected definition.
It agrees with `FromStr` on every input that is not an alias key.

## Left out

- The pydantic `BaseModel` machinery (field validation and construction) is not modelled. A `ModelId` is a plain datatype with two string fields.
- The contents of the alias table (`aliases.py`) are not part of this model. The table is a parameter of every operation.
- `decompose_model_id` and `get_lm_providers` from `utils` are not part of this model. They depend on the provider registry, and their test is skipped.
- The skipped placeholder tests `test_model_id_aliases` and `test_invalid_model_id` assert nothing, so there is nothing to state about them.
- Exception classes are reduced to their message text. `super().__init__` is not modelled.
- The text of the `ValueError` raised by the failed unpack comes from the Python interpreter, not from the source. It is modelled as the constant `UNPACK_TEXT`.
- The rest of the repository is not part of this model. That includes the TypeScript inline-completion and streaming code.
