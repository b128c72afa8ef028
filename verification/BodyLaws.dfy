/** What request rewriting guarantees: which parts it leaves alone, what its results look
    like, and that a second rewriting changes nothing. */
module BodyLaws {
  import opened Common
  import opened Text
  import opened BodyFix

  /** Two objects agree on a key: both lack it, or both have it with the same value. */
  predicate SameAt(p: Fields, q: Fields, key: string) {
    if key in p then key in q && q[key] == p[key] else key !in q
  }

  /** Only strings are read: any other value, and an absent one, counts as the empty string. */
  lemma {:induction false} StringAtMeaning(fields: Fields, key: string, s: string)
    ensures s != "" ==> (StringAt(fields, key) == s <==> key in fields && fields[key] == Str(s))
    ensures (key in fields ==> !fields[key].Str?) ==> StringAt(fields, key) == ""
  {
  }

  /** Bodies that are blank, or no JSON, or JSON but no object, go out as they came. */
  lemma {:induction false} OtherBodiesUntouched(body: Body, thinking: Thinking)
    requires body.Raw? || !body.value.Obj?
    ensures TransformBody(body, thinking) == body
  {
  }

  /** An alias in plain terms: the model becomes the base, and its level the effort, unless
      an effort was given. */
  lemma {:induction false} AliasResolved(p: Fields, thinking: Thinking, a: Alias)
    requires a.Known() && "model" in p && p["model"] == Str(a.base + "-" + LevelName(a.level))
    ensures var q := Transform(p, thinking);
            && "model" in q && q["model"] == Str(a.base)
            && "reasoning_effort" in q
            && q["reasoning_effort"] ==
               (if "reasoning_effort" in p then p["reasoning_effort"] else Str(LevelName(a.level)))
  {
    hide Transform, Tiers;
    assert IsAlias(StringAt(p, "model"), a);
    AliasUnique(StringAt(p, "model"), a, AliasOf(StringAt(p, "model")).value);
    TransformFrame(p, thinking);
  }

  // ---- messages ----

  predicate NeedsReasoning(m: Fields) {
    StringAt(m, "role") == "assistant" && !HasReasoning(m)
  }

  /** A message and what becomes of it. */
  ghost predicate Repaired(m: Json, n: Json, think: bool) {
    if m.Obj? then
      && n.Obj?
      && (forall k :: k !in {"role", "reasoning_content"} ==> SameAt(m.fields, n.fields, k))
      && (if StringAt(m.fields, "role") == "developer" then "role" in n.fields && n.fields["role"] == Str("system")
          else SameAt(m.fields, n.fields, "role"))
      && (if think && NeedsReasoning(m.fields) then
            "reasoning_content" in n.fields && n.fields["reasoning_content"] == Str(PLACEHOLDER)
          else SameAt(m.fields, n.fields, "reasoning_content"))
    else n == m
  }

  function RepairThinking(m: Json): Json {
    WithSystemRole(WithReasoning(m))
  }

  function Repair(m: Json, think: bool): Json {
    if think then RepairThinking(m) else WithSystemRole(m)
  }

  lemma {:induction false} RepairMeaning(m: Json, think: bool)
    ensures Repaired(m, Repair(m, think), think)
  {
  }

  /** A message the upstream takes, and to which no repair applies. */
  predicate CleanMessage(m: Json, think: bool) {
    m.Obj? ==>
      && StringAt(m.fields, "role") != "developer"
      && (think && StringAt(m.fields, "role") == "assistant" ==>
            HasReasoning(m.fields) ||
            ("reasoning_content" in m.fields && m.fields["reasoning_content"] == Str(PLACEHOLDER)))
  }

  /** Repair gives clean messages, and leaves exactly those alone. */
  lemma {:induction false} RepairCleans(m: Json, think: bool)
    ensures CleanMessage(Repair(m, think), think)
    ensures Repair(m, think) == m <==> CleanMessage(m, think)
  {
    RepairMeaning(m, think);
    if CleanMessage(m, think) && m.Obj? && think && NeedsReasoning(m.fields) {
      assert m.fields == m.fields["reasoning_content" := Str(PLACEHOLDER)];
    }
  }

  /** The two message repairs commute. */
  lemma {:induction false} RepairsCommute(m: Json)
    ensures WithSystemRole(WithReasoning(m)) == WithReasoning(WithSystemRole(m))
  {
  }

  // ---- message lists ----

  predicate KeepsKind(fix: Json -> Json, v: Json)
    requires Readable(v)
  {
    forall i :: 0 <= i < |v.items| ==> fix(v.items[i]).Obj? || fix(v.items[i]).Null?
  }

  lemma {:induction false} EachTwice(v: Json, f: Json -> Json, g: Json -> Json, both: Json -> Json)
    requires Readable(v) ==> KeepsKind(f, v)
    requires forall m :: both(m) == g(f(m))
    ensures EachMessage(EachMessage(v, f), g) == EachMessage(v, both)
  {
    if Readable(v) {
      assert EachMessage(EachMessage(v, f), g).items == EachMessage(v, both).items;
    }
  }

  lemma {:induction false} OnMessagesTwice(p: Fields, f: Json -> Json, g: Json -> Json, both: Json -> Json)
    requires "messages" in p && Readable(p["messages"]) ==> KeepsKind(f, p["messages"])
    requires forall m :: both(m) == g(f(m))
    ensures OnMessages(OnMessages(p, f), g) == OnMessages(p, both)
  {
    if "messages" in p {
      EachTwice(p["messages"], f, g, both);
    }
  }

  /** Running the assistant and the developer pass in either order gives the same. */
  lemma {:induction false} PassesCommute(p: Fields)
    ensures OnMessages(OnMessages(p, WithReasoning), WithSystemRole) ==
            OnMessages(OnMessages(p, WithSystemRole), WithReasoning)
  {
    forall m
      ensures RepairThinking(m) == WithReasoning(WithSystemRole(m))
    {
      RepairsCommute(m);
    }
    OnMessagesTwice(p, WithReasoning, WithSystemRole, RepairThinking);
    OnMessagesTwice(p, WithSystemRole, WithReasoning, RepairThinking);
  }

  /** The messages value after the passes. */
  function Repairs(v: Json, think: bool): Json {
    EachMessage(v, if think then RepairThinking else WithSystemRole)
  }

  lemma {:induction false} PassesRepair(p: Fields, think: bool)
    ensures OnMessages(if think then OnMessages(p, WithReasoning) else p, WithSystemRole) ==
            if "messages" in p then p["messages" := Repairs(p["messages"], think)] else p
  {
    if think {
      OnMessagesTwice(p, WithReasoning, WithSystemRole, RepairThinking);
    }
  }

  ghost predicate CleanMessages(v: Json, think: bool) {
    Readable(v) ==> forall i :: 0 <= i < |v.items| ==> CleanMessage(v.items[i], think)
  }

  lemma {:induction false} RepairsClean(v: Json, think: bool)
    ensures CleanMessages(Repairs(v, think), think)
    ensures Repairs(v, think) == v <==> CleanMessages(v, think)
  {
    if Readable(v) {
      var w := Repairs(v, think);
      forall i | 0 <= i < |v.items|
        ensures CleanMessage(w.items[i], think) && (w.items[i] == v.items[i] <==> CleanMessage(v.items[i], think))
      {
        RepairCleans(v.items[i], think);
      }
      if CleanMessages(v, think) {
        assert w.items == v.items;
      }
    }
  }

  // ---- the whole object ----

  ghost function Resolved(p: Fields): Fields {
    ResolveAlias(p - {"client_metadata"})
  }

  ghost function Thinks(p: Fields, thinking: Thinking): bool {
    thinking(StringAt(Resolved(p), "model"))
  }

  lemma {:induction false} TransformIs(p: Fields, thinking: Thinking)
    ensures var q := Resolved(p);
            Transform(p, thinking) ==
            if "messages" in q then q["messages" := Repairs(q["messages"], Thinks(p, thinking))] else q
  {
    PassesRepair(Resolved(p), Thinks(p, thinking));
  }

  lemma {:induction false} ResolvedMeaning(p: Fields)
    ensures var q := Resolved(p);
            && "client_metadata" !in q
            && (forall k :: k !in {"client_metadata", "model", "reasoning_effort"} ==> SameAt(p, q, k))
            && ("reasoning_effort" in p ==> SameAt(p, q, "reasoning_effort"))
            && match AliasOf(StringAt(p, "model"))
               case None => SameAt(p, q, "model") && SameAt(p, q, "reasoning_effort")
               case Some(a) =>
                 && "model" in q && q["model"] == Str(a.base)
                 && "reasoning_effort" in q
                 && ("reasoning_effort" !in p ==> q["reasoning_effort"] == Str(LevelName(a.level)))
  {
    assert StringAt(p, "model") == StringAt(p - {"client_metadata"}, "model");
  }

  /** The frame. Beside client_metadata only model, reasoning_effort and messages can
      change: the first two for an alias only, an effort given explicitly never; of the
      messages, number and order stay and each is repaired on its own. */
  lemma {:induction false} TransformFrame(p: Fields, thinking: Thinking)
    ensures var q := Transform(p, thinking);
            && "client_metadata" !in q
            && (forall k :: k !in {"client_metadata", "model", "reasoning_effort", "messages"} ==> SameAt(p, q, k))
            && ("reasoning_effort" in p ==> SameAt(p, q, "reasoning_effort"))
            && match AliasOf(StringAt(p, "model"))
               case None => SameAt(p, q, "model") && SameAt(p, q, "reasoning_effort")
               case Some(a) =>
                 && "model" in q && q["model"] == Str(a.base)
                 && "reasoning_effort" in q
                 && ("reasoning_effort" !in p ==> q["reasoning_effort"] == Str(LevelName(a.level)))
  {
    ResolvedMeaning(p);
    TransformIs(p, thinking);
  }

  lemma {:induction false} TransformMessages(p: Fields, thinking: Thinking)
    ensures var q := Transform(p, thinking);
            if "messages" in p && Readable(p["messages"]) then
              && "messages" in q && q["messages"].Arr? && |q["messages"].items| == |p["messages"].items|
              && forall i :: 0 <= i < |p["messages"].items| ==>
                   Repaired(p["messages"].items[i], q["messages"].items[i], thinking(StringAt(q, "model")))
            else SameAt(p, q, "messages")
  {
    ResolvedMeaning(p);
    TransformIs(p, thinking);
    assert SameAt(p, Resolved(p), "messages");
    if "messages" in p && Readable(p["messages"]) {
      var items, think := p["messages"].items, Thinks(p, thinking);
      forall i | 0 <= i < |items|
        ensures Repaired(items[i], Repair(items[i], think), think)
      {
        RepairMeaning(items[i], think);
      }
    }
  }

  /** An object the upstream takes as it is. */
  ghost predicate Clean(p: Fields, thinking: Thinking) {
    && "client_metadata" !in p
    && !Aliased(StringAt(p, "model"))
    && ("messages" in p ==> CleanMessages(p["messages"], thinking(StringAt(p, "model"))))
  }

  lemma {:induction false} ResolvedHasNoAlias(p: Fields)
    ensures !Aliased(StringAt(Resolved(p), "model"))
  {
    ResolvedMeaning(p);
    var a := AliasOf(StringAt(p, "model"));
    if a.Some? {
      BaseIsNoAlias(a.value.base);
    }
  }

  /** Whatever comes in, what goes out is clean. */
  lemma {:induction false} TransformCleans(p: Fields, thinking: Thinking)
    ensures Clean(Transform(p, thinking), thinking)
  {
    ResolvedMeaning(p);
    TransformIs(p, thinking);
    ResolvedHasNoAlias(p);
    var q := Resolved(p);
    if "messages" in q {
      RepairsClean(q["messages"], Thinks(p, thinking));
    }
  }

  lemma {:induction false} ResolvedSame(p: Fields)
    requires "client_metadata" !in p && !Aliased(StringAt(p, "model"))
    ensures Resolved(p) == p
  {
    assert p - {"client_metadata"} == p;
  }

  /** The objects the rewriting leaves alone are exactly the clean ones. */
  lemma {:induction false} CleanIsFixed(p: Fields, thinking: Thinking)
    ensures Transform(p, thinking) == p <==> Clean(p, thinking)
  {
    if Transform(p, thinking) == p {
      TransformCleans(p, thinking);
    }
    if Clean(p, thinking) {
      ResolvedSame(p);
      TransformIs(p, thinking);
      if "messages" in p {
        RepairsClean(p["messages"], Thinks(p, thinking));
        assert p == p["messages" := p["messages"]];
      }
    }
  }

  /** A body that has been rewritten once is not changed by a second rewriting, whatever
      the body and whichever models count as thinking models. */
  lemma {:induction false} RewritingIsIdempotent(body: Body, thinking: Thinking)
    ensures TransformBody(TransformBody(body, thinking), thinking) == TransformBody(body, thinking)
  {
    if body.Doc? && body.value.Obj? {
      TransformCleans(body.value.fields, thinking);
      CleanIsFixed(Transform(body.value.fields, thinking), thinking);
    }
  }

  // ---- reasoning content in plain terms ----

  /** Reasoning content the upstream accepts: a string that is one blank, or in which some
      character is not white space. */
  ghost predicate Accepted(v: Json) {
    v.Str? && (v.chars == " " || exists j :: 0 <= j < |v.chars| && !IsSpace(v.chars[j]))
  }

  lemma {:induction false} ReasoningOf(m: Fields)
    ensures StringAt(m, "role") == "assistant" <==> "role" in m && m["role"] == Str("assistant")
    ensures HasReasoning(m) || ("reasoning_content" in m && m["reasoning_content"] == Str(" ")) <==>
            "reasoning_content" in m && Accepted(m["reasoning_content"])
  {
    assert "assistant" != "";
  }

  lemma {:induction false} BlankPlaceholder(m: Fields)
    requires "reasoning_content" in m && m["reasoning_content"] == Str(" ")
    ensures !HasReasoning(m)
  {
  }

  /** For a thinking model, the assistant messages that go out all have such content: what
      a message had is kept if and only if it was such, and replaced by one blank if it was
      absent, no string, or white space only. For other models, and in messages of other
      roles, it is kept as it was. */
  lemma {:induction false} ReasoningInPlainTerms(p: Fields, thinking: Thinking, i: nat)
    requires "messages" in p && p["messages"].Arr? && i < |p["messages"].items|
    requires forall j :: 0 <= j < |p["messages"].items| ==> p["messages"].items[j].Obj? || p["messages"].items[j].Null?
    requires p["messages"].items[i].Obj?
    ensures var q := Transform(p, thinking);
            && "messages" in q && q["messages"].Arr? && |q["messages"].items| == |p["messages"].items|
            && q["messages"].items[i].Obj?
            && var m, n := p["messages"].items[i].fields, q["messages"].items[i].fields;
               if thinking(StringAt(q, "model")) && "role" in m && m["role"] == Str("assistant") then
                 && "reasoning_content" in n && Accepted(n["reasoning_content"])
                 && n["reasoning_content"] ==
                    (if "reasoning_content" in m && Accepted(m["reasoning_content"]) then m["reasoning_content"]
                     else Str(" "))
               else SameAt(m, n, "reasoning_content")
  {
    hide Transform, HasReasoning, Accepted;
    TransformMessages(p, thinking);
    var m := p["messages"].items[i].fields;
    ReasoningOf(m);
    BlankIsAccepted();
    if "reasoning_content" in m && m["reasoning_content"] == Str(" ") {
      BlankPlaceholder(m);
    }
  }

  lemma {:induction false} BlankIsAccepted()
    ensures Accepted(Str(" "))
  {
  }
}
