/** The rewriting of request bodies: a transformation of JSON objects that drops a key,
    resolves model aliases and repairs messages, and leaves all else alone. */
module BodyFix {
  import opened Common
  import opened Text

  /** A JSON value; a number is its text. */
  datatype Json =
    | Null
    | Bool(value: bool)
    | Num(text: string)
    | Str(chars: string)
    | Arr(items: seq<Json>)
    | Obj(fields: map<string, Json>)

  type Fields = map<string, Json>

  /** Bytes that are blank or not JSON, or the value of a JSON text. */
  datatype Body = Raw(bytes: seq<byte>) | Doc(value: Json)

  /** Decoding a field into a string variable: anything but a string leaves it empty. */
  function StringAt(fields: Fields, key: string): string {
    if key in fields && fields[key].Str? then fields[key].chars else ""
  }

  // ---- model aliases ----

  datatype Level = None_ | Low | Medium | High | Max

  function LevelName(l: Level): string {
    match l
    case None_ => "none"
    case Low => "low"
    case Medium => "medium"
    case High => "high"
    case Max => "max"
  }

  function Tiers(): map<string, seq<Level>> {
    map[
      "deepseek-v4-pro" := [Low, Medium, High, Max],
      "deepseek-v4-flash" := [High, Max],
      "glm-5.2" := [High, Max],
      "mimo-v2.5" := [High, Max],
      "grok-4.5" := [Low, Medium, High],
      "hy3" := [None_, Low, High],
      "kimi-k3" := [Max],
      "qwen3.6-plus" := [High, Max],
      "qwen3.7-max" := [High, Max],
      "qwen3.7-plus" := [High, Max]
    ]
  }

  datatype Alias = Alias(base: string, level: Level)
  {
    function Name(): string {
      base + "-" + LevelName(level)
    }

    predicate Known() {
      base in Tiers() && level in Tiers()[base]
    }
  }

  predicate IsAlias(model: string, a: Alias) {
    a.Known() && model == a.Name()
  }

  ghost predicate Aliased(model: string) {
    exists a :: IsAlias(model, a)
  }

  ghost function AliasOf(model: string): (a: Option<Alias>)
    ensures if Aliased(model) then a.Some? && IsAlias(model, a.value) else a.None?
  {
    if Aliased(model) then var a :| IsAlias(model, a); Some(a) else None
  }

  lemma {:induction false} LevelNamesPlain(l: Level)
    ensures '-' !in LevelName(l)
  {
  }

  lemma {:induction false} LevelNamesDiffer(l: Level, m: Level)
    requires LevelName(l) == LevelName(m)
    ensures l == m
  {
    assert |LevelName(l)| == |LevelName(m)| && LevelName(l)[0] == LevelName(m)[0];
    assert LevelName(l)[1] == LevelName(m)[1];
  }

  /** A model name is an alias in at most one way, so it does not matter in which order
      the table is searched. */
  lemma {:induction false} AliasUnique(model: string, a: Alias, b: Alias)
    requires IsAlias(model, a) && IsAlias(model, b)
    ensures a == b
  {
    hide Tiers;
    LevelNamesPlain(a.level);
    LevelNamesPlain(b.level);
    SplitAtLast(a.base, LevelName(a.level), b.base, LevelName(b.level), '-');
    LevelNamesDiffer(a.level, b.level);
  }

  /** A name is no alias if what follows its last dash is no level of what precedes it. */
  lemma {:induction false} NotAlias(prefix: string, suffix: string)
    requires '-' !in suffix
    requires forall l :: LevelName(l) == suffix ==> prefix !in Tiers()
    ensures !Aliased(prefix + "-" + suffix)
  {
    hide Tiers;
    forall a | IsAlias(prefix + "-" + suffix, a)
      ensures false
    {
      LevelNamesPlain(a.level);
      SplitAtLast(a.base, LevelName(a.level), prefix, suffix, '-');
    }
  }

  /** The aliases in plain terms: exactly these names, each a base, a dash and a level. */
  lemma {:induction false} AliasTable(a: Alias)
    ensures a.Known() <==> (a.base, LevelName(a.level)) in {
      ("deepseek-v4-pro", "low"), ("deepseek-v4-pro", "medium"), ("deepseek-v4-pro", "high"),
      ("deepseek-v4-pro", "max"), ("deepseek-v4-flash", "high"), ("deepseek-v4-flash", "max"),
      ("glm-5.2", "high"), ("glm-5.2", "max"), ("mimo-v2.5", "high"), ("mimo-v2.5", "max"),
      ("grok-4.5", "low"), ("grok-4.5", "medium"), ("grok-4.5", "high"),
      ("hy3", "none"), ("hy3", "low"), ("hy3", "high"), ("kimi-k3", "max"),
      ("qwen3.6-plus", "high"), ("qwen3.6-plus", "max"), ("qwen3.7-max", "high"), ("qwen3.7-max", "max"),
      ("qwen3.7-plus", "high"), ("qwen3.7-plus", "max")}
    ensures a.Name() == a.base + "-" + LevelName(a.level)
  {
  }

  /** Searches the tiers in any order. */
  method ParseEffortLevel(model: string) returns (alias: Option<Alias>)
    ensures alias == AliasOf(model)
  {
    hide Tiers;
    var rest := Tiers().Keys;
    while rest != {}
      invariant rest <= Tiers().Keys
      invariant forall a :: IsAlias(model, a) ==> a.base in rest
      decreases rest
    {
      var base :| base in rest;
      for i := 0 to |Tiers()[base]|
        invariant forall a :: IsAlias(model, a) && a.base == base ==> a.level in Tiers()[base][i..]
      {
        var a := Alias(base, Tiers()[base][i]);
        if model == a.Name() {
          assert IsAlias(model, a);
          AliasUnique(model, a, AliasOf(model).value);
          return Some(a);
        }
      }
      rest := rest - {base};
    }
    return None;
  }

  lemma {:induction false} BaseNames(base: string)
    requires base in Tiers()
    ensures base in {"deepseek-v4-pro", "deepseek-v4-flash", "glm-5.2", "mimo-v2.5", "grok-4.5", "hy3", "kimi-k3",
                     "qwen3.6-plus", "qwen3.7-max", "qwen3.7-plus"}
  {
  }

  lemma {:induction false} PrefixesAreNoBases()
    ensures "deepseek-v4" !in Tiers() && "glm" !in Tiers() && "mimo" !in Tiers() && "grok" !in Tiers()
    ensures "kimi" !in Tiers() && "qwen3.6" !in Tiers() && "qwen3.7" !in Tiers()
  {
  }

  /** Resolving an alias gives a name that is none: no base is itself an alias. */
  lemma {:induction false} BaseIsNoAlias(base: string)
    requires base in Tiers()
    ensures !Aliased(base)
  {
    hide Tiers;
    BaseNames(base);
    PrefixesAreNoBases();
    if base == "deepseek-v4-pro" {
      PlainName(base, "deepseek-v4", "pro");
    } else if base == "deepseek-v4-flash" {
      PlainName(base, "deepseek-v4", "flash");
    } else if base == "glm-5.2" {
      PlainName(base, "glm", "5.2");
    } else if base == "mimo-v2.5" {
      PlainName(base, "mimo", "v2.5");
    } else if base == "grok-4.5" {
      PlainName(base, "grok", "4.5");
    } else if base == "hy3" {
      NoDashNoAlias(base);
    } else if base == "kimi-k3" {
      PlainName(base, "kimi", "k3");
    } else if base == "qwen3.6-plus" {
      PlainName(base, "qwen3.6", "plus");
    } else if base == "qwen3.7-max" {
      PlainName(base, "qwen3.7", "max");
    } else {
      PlainName(base, "qwen3.7", "plus");
    }
  }

  lemma {:induction false} PlainName(name: string, prefix: string, suffix: string)
    requires name == prefix + "-" + suffix && '-' !in suffix && prefix !in Tiers()
    ensures !Aliased(name)
  {
    hide Tiers;
    NotAlias(prefix, suffix);
  }

  lemma {:induction false} NameHasDash(a: Alias)
    ensures '-' in a.Name()
  {
    assert a.Name()[|a.base|] == '-';
  }

  lemma {:induction false} NoDashNoAlias(name: string)
    requires '-' !in name
    ensures !Aliased(name)
  {
    forall a
      ensures !IsAlias(name, a)
    {
      NameHasDash(a);
    }
  }

  // ---- messages ----

  const PLACEHOLDER := " "

  /** Decoding messages succeeds on objects and nulls only. */
  predicate Readable(v: Json) {
    v.Arr? && forall i :: 0 <= i < |v.items| ==> v.items[i].Obj? || v.items[i].Null?
  }

  /** A message that carries reasoning content of its own. */
  predicate HasReasoning(m: Fields) {
    "reasoning_content" in m && m["reasoning_content"].Str? && !Blank(m["reasoning_content"].chars)
  }

  function WithReasoning(m: Json): Json {
    if m.Obj? && StringAt(m.fields, "role") == "assistant" && !HasReasoning(m.fields) then
      Obj(m.fields["reasoning_content" := Str(PLACEHOLDER)])
    else m
  }

  function WithSystemRole(m: Json): Json {
    if m.Obj? && StringAt(m.fields, "role") == "developer" then Obj(m.fields["role" := Str("system")]) else m
  }

  /** Applies a repair to every message, if they can be read. */
  function EachMessage(v: Json, fix: Json -> Json): Json {
    if Readable(v) then Arr(seq(|v.items|, i requires 0 <= i < |v.items| => fix(v.items[i]))) else v
  }

  function OnMessages(p: Fields, fix: Json -> Json): Fields {
    if "messages" in p then p["messages" := EachMessage(p["messages"], fix)] else p
  }

  // ---- the whole object ----

  type Thinking = string -> bool

  ghost function ResolveAlias(p: Fields): Fields {
    match AliasOf(StringAt(p, "model"))
    case None => p
    case Some(a) =>
      var q := p["model" := Str(a.base)];
      if "reasoning_effort" in q then q else q["reasoning_effort" := Str(LevelName(a.level))]
  }

  ghost function Transform(p: Fields, thinking: Thinking): Fields {
    var q := ResolveAlias(p - {"client_metadata"});
    var r := if thinking(StringAt(q, "model")) then OnMessages(q, WithReasoning) else q;
    OnMessages(r, WithSystemRole)
  }

  ghost function TransformBody(b: Body, thinking: Thinking): Body {
    if b.Doc? && b.value.Obj? then Doc(Obj(Transform(b.value.fields, thinking))) else b
  }

  // ---- the code ----

  method InjectReasoningContent(payload: Fields) returns (out: Fields, modified: bool)
    ensures out == OnMessages(payload, WithReasoning)
  {
    if "messages" !in payload || !(payload["messages"].Null? || Readable(payload["messages"])) {
      NothingToRead(payload, WithReasoning);
      return payload, false;
    }
    var msgs := if payload["messages"].Null? then [] else payload["messages"].items;
    ghost var start := msgs;
    modified := false;
    for i := 0 to |msgs|
      invariant |msgs| == |start| && msgs[i..] == start[i..]
      invariant forall j :: 0 <= j < i ==> msgs[j] == WithReasoning(start[j])
      invariant if modified then i > 0 else msgs == start
    {
      var m := msgs[i];
      if m.Null? || StringAt(m.fields, "role") != "assistant" {
        continue;
      }
      var hasRC := false;
      if "reasoning_content" in m.fields {
        var raw := m.fields["reasoning_content"];
        if raw.Str? && !Blank(raw.chars) {
          hasRC := true;
        }
      }
      if hasRC {
        continue;
      }
      msgs := msgs[i := Obj(m.fields["reasoning_content" := Str(PLACEHOLDER)])];
      modified := true;
    }
    out := payload;
    if modified {
      out := payload["messages" := Arr(msgs)];
    }
    MessagesDone(payload, msgs, WithReasoning);
  }

  method NormalizeDeveloperRole(payload: Fields) returns (out: Fields, modified: bool)
    ensures out == OnMessages(payload, WithSystemRole)
  {
    if "messages" !in payload || !(payload["messages"].Null? || Readable(payload["messages"])) {
      NothingToRead(payload, WithSystemRole);
      return payload, false;
    }
    var msgs := if payload["messages"].Null? then [] else payload["messages"].items;
    ghost var start := msgs;
    modified := false;
    for i := 0 to |msgs|
      invariant |msgs| == |start| && msgs[i..] == start[i..]
      invariant forall j :: 0 <= j < i ==> msgs[j] == WithSystemRole(start[j])
      invariant if modified then i > 0 else msgs == start
    {
      var m := msgs[i];
      if m.Obj? && StringAt(m.fields, "role") == "developer" {
        msgs := msgs[i := Obj(m.fields["role" := Str("system")])];
        modified := true;
      }
    }
    out := payload;
    if modified {
      out := payload["messages" := Arr(msgs)];
    }
    MessagesDone(payload, msgs, WithSystemRole);
  }

  lemma {:induction false} NothingToRead(p: Fields, fix: Json -> Json)
    requires "messages" in p ==> !Readable(p["messages"])
    ensures OnMessages(p, fix) == p
  {
    if "messages" in p {
      assert p == p["messages" := p["messages"]];
    }
  }

  /** The end of both loops. */
  lemma {:induction false} MessagesDone(p: Fields, msgs: seq<Json>, fix: Json -> Json)
    requires "messages" in p && (p["messages"].Null? || Readable(p["messages"]))
    requires var items := if p["messages"].Null? then [] else p["messages"].items;
             |msgs| == |items| && forall j :: 0 <= j < |msgs| ==> msgs[j] == fix(items[j])
    ensures OnMessages(p, fix) == if p["messages"].Null? then p else p["messages" := Arr(msgs)]
    ensures p["messages"].Arr? && msgs == p["messages"].items ==> p == p["messages" := Arr(msgs)]
  {
    if p["messages"].Null? {
      assert p == p["messages" := p["messages"]];
    } else {
      assert msgs == EachMessage(p["messages"], fix).items;
    }
  }

  method TransformRequestBody(body: Body, thinking: Thinking) returns (out: Body)
    ensures out == TransformBody(body, thinking)
  {
    if body.Raw? || !(body.value.Null? || body.value.Obj?) {
      return body;
    }
    if body.value.Null? {
      return Doc(Null);
    }
    var payload := body.value.fields - {"client_metadata"};
    var model := StringAt(payload, "model");
    var alias := ParseEffortLevel(model);
    if alias.Some? {
      payload := payload["model" := Str(alias.value.base)];
      if "reasoning_effort" !in payload {
        payload := payload["reasoning_effort" := Str(LevelName(alias.value.level))];
      }
      model := alias.value.base;
    }
    var modified;
    if thinking(model) {
      payload, modified := InjectReasoningContent(payload);
    }
    payload, modified := NormalizeDeveloperRole(payload);
    return Doc(Obj(payload));
  }
}
