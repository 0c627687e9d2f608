/** What the two prompts of FormWork.java contain: the corrective prompt quotes the previous
    response exactly when it is non-null and not blank, and gives back what it quotes; the
    full prompt opens with the base prompt, carries the schema or the class-name fallback,
    announces enum constraints exactly when a directly declared field is an enum, and ends
    with the IMPORTANT line. */
module FormWorkPrompts {
  import opened Wrappers
  import opened JavaString
  import opened FormWork
  import SchemaManager
  import SchemaManagerProperties

  /** `t` occurs somewhere in `s`. */
  ghost predicate Contains(s: string, t: string) {
    exists before, after :: s == before + t + after
  }

  /** Equal texts around two middles make the middles equal. */
  lemma MiddleCancel(a: string, x: string, y: string, b: string)
    requires a + x + b == a + y + b
    ensures x == y
  {
    var s := a + x + b;
    assert |x| == |y|;
    assert x == s[|a|..|a| + |x|];
    assert y == (a + y + b)[|a|..|a| + |y|];
  }

  lemma PrefixOf(a: string, b: string)
    ensures StartsWith(a + b, a)
  {
    assert (a + b)[..|a|] == a;
  }

  lemma SuffixOf(a: string, b: string)
    ensures EndsWith(a + b, b)
  {
    assert (a + b)[|a + b| - |b|..] == b;
  }

  // ---------------------------------------------------------------------------
  // The corrective prompt

  /** The corrective prompt around a quoted response, regrouped. */
  lemma RetryPromptQuoting(name: string, base: string, message: Option<string>, r: string)
    requires !IsBlank(r)
    ensures RetryPrompt(name, base, message, Some(r)) ==
            (OriginalRequestSection(base) + ErrorSection(message) + PreviousOpen) + r +
            (PreviousClose + InstructionsSection(name))
  {
    var head := OriginalRequestSection(base) + ErrorSection(message);
    var tail := InstructionsSection(name);
    var quoted := PreviousOpen + r + PreviousClose;
    assert PreviousResponseSection(Some(r)) == quoted;
    assert RetryPrompt(name, base, message, Some(r)) == head + quoted + tail;
    SchemaManager.AppendAssoc(head, PreviousOpen + r, PreviousClose);
    SchemaManager.AppendAssoc(head, PreviousOpen, r);
    assert head + quoted == (head + PreviousOpen) + r + PreviousClose;
    SchemaManager.AppendAssoc((head + PreviousOpen) + r, PreviousClose, tail);
  }

  /** The corrective prompt around the error message, regrouped. */
  lemma RetryPromptAroundMessage(name: string, base: string, message: Option<string>, lastResponse: Option<string>)
    ensures RetryPrompt(name, base, message, lastResponse) ==
            (OriginalRequestSection(base) + ErrorOpen) + NullableText(message) +
            ((ErrorClose + PreviousResponseSection(lastResponse)) + InstructionsSection(name))
  {
    var request := OriginalRequestSection(base);
    var text := NullableText(message);
    var previous := PreviousResponseSection(lastResponse);
    var tail := InstructionsSection(name);
    assert ErrorSection(message) == ErrorOpen + text + ErrorClose;
    SchemaManager.AppendAssoc(ErrorOpen, text, ErrorClose);
    SchemaManager.AppendAssoc(request, ErrorOpen, text + ErrorClose);
    SchemaManager.AppendAssoc(request + ErrorOpen, text, ErrorClose);
    var x := (request + ErrorOpen) + text;
    assert request + ErrorSection(message) == x + ErrorClose;
    SchemaManager.AppendAssoc(x, ErrorClose, previous);
    SchemaManager.AppendAssoc(x, ErrorClose + previous, tail);
  }

  /** The request, the error and the instructions come in this order, with the request's
      base prompt and the error's message (Java's "null" for a null message) in place. */
  lemma RetryPromptFrame(name: string, base: string, message: Option<string>, lastResponse: Option<string>)
    ensures var p := RetryPrompt(name, base, message, lastResponse);
      StartsWith(p, RequestOpen + base + RequestClose + ErrorOpen + NullableText(message) + ErrorClose) &&
      EndsWith(p, InstructionsHead + name + ObjectTail + InstructionsClose)
  {
    var head := OriginalRequestSection(base) + ErrorSection(message);
    var middle := PreviousResponseSection(lastResponse);
    var tail := InstructionsSection(name);
    SchemaManager.AppendAssoc(head, middle, tail);
    PrefixOf(head, middle + tail);
    SuffixOf(head + middle, tail);
  }

  /** The previous response is left out exactly when it is null or blank. */
  lemma PreviousOmittedIff(name: string, base: string, message: Option<string>, lastResponse: Option<string>)
    ensures RetryPrompt(name, base, message, lastResponse) == RetryPrompt(name, base, message, None) <==>
            (lastResponse.None? || IsBlank(lastResponse.value))
  {
    if lastResponse.Some? && !IsBlank(lastResponse.value) {
      var with := RetryPrompt(name, base, message, lastResponse);
      var without := RetryPrompt(name, base, message, None);
      assert |PreviousResponseSection(lastResponse)| > 0 by {
        assert |PreviousOpen| > 0;
      }
      assert |with| > |without|;
    }
  }

  /** When quoted, the previous response is quoted verbatim: two prompts that agree on
      everything else but quote different responses differ. */
  lemma QuotedResponseRecoverable(name: string, base: string, message: Option<string>, r1: string, r2: string)
    requires !IsBlank(r1) && !IsBlank(r2)
    requires RetryPrompt(name, base, message, Some(r1)) == RetryPrompt(name, base, message, Some(r2))
    ensures r1 == r2
  {
    RetryPromptQuoting(name, base, message, r1);
    RetryPromptQuoting(name, base, message, r2);
    MiddleCancel(OriginalRequestSection(base) + ErrorSection(message) + PreviousOpen, r1, r2,
                 PreviousClose + InstructionsSection(name));
  }

  /** The error section reports the message verbatim: prompts that differ only in the
      message differ exactly when the rendered messages do. */
  lemma ErrorMessageRecoverable(name: string, base: string, m1: Option<string>, m2: Option<string>,
                                lastResponse: Option<string>)
    ensures RetryPrompt(name, base, m1, lastResponse) == RetryPrompt(name, base, m2, lastResponse) <==>
            NullableText(m1) == NullableText(m2)
  {
    RetryPromptAroundMessage(name, base, m1, lastResponse);
    RetryPromptAroundMessage(name, base, m2, lastResponse);
    if RetryPrompt(name, base, m1, lastResponse) == RetryPrompt(name, base, m2, lastResponse) {
      MiddleCancel(OriginalRequestSection(base) + ErrorOpen, NullableText(m1), NullableText(m2),
                   (ErrorClose + PreviousResponseSection(lastResponse)) + InstructionsSection(name));
    }
  }

  // ---------------------------------------------------------------------------
  // The full prompt

  /** The full prompt opens with the base prompt and a blank line and ends with the
      IMPORTANT line; between them comes the schema, or the "Target class:" fallback when
      the schema could not be produced. */
  lemma FullPromptFrame(reg: SchemaManager.Registry, t: SchemaManager.TypeId, base: string, schema: Option<string>)
    requires SchemaManager.Closed(reg) && t in reg
    ensures var p := FullPrompt(reg, t, base, schema);
      var name := reg[t].simpleName;
      StartsWith(p, base + BlankLine + OutputFormatIntro) &&
      EndsWith(p, ImportantHead + name + ObjectTail + "\n") &&
      (schema.Some? ==> Contains(p, SchemaIntro + name + ColonLine + schema.value + BlankLine)) &&
      (schema.None? ==> Contains(p, TargetClassIntro + name + BlankLine))
  {
    var name := reg[t].simpleName;
    var head := base + BlankLine + OutputFormatIntro;
    var section := SchemaSection(name, schema);
    var enums := EnumSection(reg, t);
    var last := ImportantLine(name);
    SchemaManager.AppendAssoc(head + section, enums, last);
    SchemaManager.AppendAssoc(head, section, enums + last);
    PrefixOf(head, section + (enums + last));
    SuffixOf(head + section + enums, last);
    assert FullPrompt(reg, t, base, schema) == head + section + (enums + last);
  }

  /** The enum block is there exactly when a directly declared field is an enum; it is
      then the walker's text, which closes with the "Always use the exact values" sentence,
      and it lists each such field under its own name. */
  lemma EnumBlockIff(reg: SchemaManager.Registry, t: SchemaManager.TypeId)
    requires SchemaManager.Closed(reg) && t in reg
    ensures EnumSection(reg, t) != [] <==>
            exists i :: 0 <= i < |reg[t].declaredFields| && reg[reg[t].declaredFields[i].fieldType].isEnum
    ensures HasEnumFields(reg, t) ==>
      EnumSection(reg, t) == SchemaManager.EnumConstraintsPrompt(reg, t) + BlankLine &&
      EndsWith(SchemaManager.EnumConstraintsPrompt(reg, t), SchemaManager.Closing) &&
      forall i :: 0 <= i < |reg[t].declaredFields| && reg[reg[t].declaredFields[i].fieldType].isEnum ==>
        SchemaManager.EnumEntry(reg[t].declaredFields[i].name, reg[t].declaredFields[i].fieldType) in
          SchemaManager.Walk(reg, t, "", {}).entries
  {
    if HasEnumFields(reg, t) {
      var i :| 0 <= i < |reg[t].declaredFields| && reg[reg[t].declaredFields[i].fieldType].isEnum;
      SchemaManagerProperties.DirectEnumListed(reg, t, i);
      forall j | 0 <= j < |reg[t].declaredFields| && reg[reg[t].declaredFields[j].fieldType].isEnum
        ensures SchemaManager.EnumEntry(reg[t].declaredFields[j].name, reg[t].declaredFields[j].fieldType) in
          SchemaManager.Walk(reg, t, "", {}).entries
      {
        SchemaManagerProperties.DirectEnumListed(reg, t, j);
      }
    }
  }

  // ---------------------------------------------------------------------------
  // Enum fields of nested classes are not announced

  /** Outer { inner: Inner } and Inner { level: Level }, with Level an enum. */
  function NestedRegistry(): SchemaManager.Registry {
    map[
      0 := SchemaManager.TypeInfo("com.app.Outer", "Outer", false, false, [], [SchemaManager.Field("inner", 1)]),
      1 := SchemaManager.TypeInfo("com.app.Inner", "Inner", false, false, [], [SchemaManager.Field("level", 2)]),
      2 := SchemaManager.TypeInfo("com.app.Level", "Level", false, true, ["LOW", "HIGH"], [])
    ]
  }

  /** The walker would list inner.level, yet the full prompt for Outer carries no enum
      block, because hasEnumFields looks at declared fields only. */
  lemma NestedEnumNotAnnounced()
    ensures SchemaManager.Closed(NestedRegistry())
    ensures !HasEnumFields(NestedRegistry(), 0) && EnumSection(NestedRegistry(), 0) == ""
    ensures SchemaManager.Walk(NestedRegistry(), 0, "", {}).entries == [SchemaManager.EnumEntry("inner.level", 2)]
  {
    var reg := NestedRegistry();
    assert SchemaManager.Closed(reg);
    assert SchemaManager.JavaPackage[0] == 'j' && SchemaManager.JavaxPackage[0] == 'j';
    assert SchemaManager.JakartaPackage[0] == 'j' && SchemaManager.StringClassName[0] == 'j';
    assert reg[1].name[0] == 'c';
    assert SchemaManager.IsModelClass(reg[1]);
    assert !HasEnumFields(reg, 0) by {
      assert !reg[reg[0].declaredFields[0].fieldType].isEnum;
    }
    var entry := SchemaManager.EnumEntry("inner.level", 2);
    assert SchemaManager.QualifiedName("inner", "level") == "inner.level";
    assert SchemaManager.QualifiedName("", "inner") == "inner";
    var both: set<SchemaManager.TypeId> := {0, 1};
    assert SchemaManager.FieldStep(reg, 1, 0, "inner", both) == SchemaManager.WalkResult([entry], both, [], []);
    assert SchemaManager.WalkFields(reg, 1, 1, "inner", both) == SchemaManager.WalkResult([], both, [], []);
    assert SchemaManager.WalkFields(reg, 1, 0, "inner", both).entries == [entry];
    assert {0} + {1} == both;
    var inner := SchemaManager.Walk(reg, 1, "inner", {0});
    assert inner.entries == [entry];
    assert SchemaManager.FieldStep(reg, 0, 0, "", {0}) == inner;
    assert SchemaManager.WalkFields(reg, 0, 1, "", inner.visited).entries == [];
    assert SchemaManager.WalkFields(reg, 0, 0, "", {0}).entries == [entry];
    assert {} + {0} == {0};
  }
}
