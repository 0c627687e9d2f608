/** The enum-constraint walker of SchemaManager.java. Reflection is replaced by a registry
    that describes every class: its names, whether it is primitive or an enum, its enum
    constants in declaration order and its declared fields with their types. The walk is a
    depth-first pass over declared fields that writes one line per enum field into a shared
    buffer and keeps a visited set shared by the whole walk, so that a class is expanded at
    most once and cyclic types terminate. */
module SchemaManager {
  import opened Wrappers
  import opened JavaString

  /** The identity of a java.lang.Class object. */
  type TypeId = nat

  datatype Field = Field(name: string, fieldType: TypeId)

  /** What reflection reports about one class. */
  datatype TypeInfo = TypeInfo(
    name: string,
    simpleName: string,
    isPrimitive: bool,
    isEnum: bool,
    enumConstants: seq<string>,
    declaredFields: seq<Field>)

  type Registry = map<TypeId, TypeInfo>

  /** Every field's type is itself described: in Java a field always has a Class. */
  predicate Closed(reg: Registry) {
    forall t, i :: t in reg && 0 <= i < |reg[t].declaredFields| ==>
      reg[t].declaredFields[i].fieldType in reg
  }

  const StringClassName: string := "java.lang.String"
  const Header: string := "ENUM CONSTRAINTS:\n\n"
  const Closing: string :=
    "\nAlways use the exact values as specified above. Do not use variations, different cases, or custom values."

  const JavaPackage: string := "java."
  const JavaxPackage: string := "javax."
  const JakartaPackage: string := "jakarta."
  const JoinSeparator: string := " | "
  const Dot: string := "."

  /** isModelClass: the classes the walk descends into. */
  predicate IsModelClass(c: TypeInfo) {
    !c.isPrimitive &&
    !StartsWith(c.name, JavaPackage) &&
    !StartsWith(c.name, JavaxPackage) &&
    !StartsWith(c.name, JakartaPackage) &&
    !c.isEnum &&
    c.name != StringClassName
  }

  /** getValidEnumValues: the constant names in declaration order. */
  function GetValidEnumValues(e: TypeInfo): seq<string>
    requires e.isEnum
  {
    e.enumConstants
  }

  /** getEnumValues: the same names joined with " | ". */
  function GetEnumValues(e: TypeInfo): string
    requires e.isEnum
  {
    Join(JoinSeparator, e.enumConstants)
  }

  /** Enum.valueOf's lookup of a constant by its exact, case-sensitive name. */
  function HasConstant(names: seq<string>, v: string): (found: bool)
    ensures found <==> exists i :: 0 <= i < |names| && names[i] == v
  {
    if |names| == 0 then false
    else names[0] == v || HasConstant(names[1..], v)
  }

  /** isValidEnumValue: false for null, otherwise whether some constant has that name. */
  function IsValidEnumValue(e: TypeInfo, value: Option<string>): (valid: bool)
    requires e.isEnum
    ensures valid <==> value.Some? && value.value in GetValidEnumValues(e)
  {
    match value
    case None => false
    case Some(v) => HasConstant(e.enumConstants, v)
  }

  /** A field's dotted path: its plain name at the root, `prefix.name` below it. */
  function QualifiedName(prefix: string, name: string): string {
    if prefix == "" then name else prefix + Dot + name
  }

  // ---------------------------------------------------------------------------
  // The walk, as functions

  /** One constraint line to be written: the field path and the enum class. */
  datatype EnumEntry = EnumEntry(path: string, enumType: TypeId)

  /** What a walk contributes: its lines, the visited set afterwards, and (for the proofs)
      the classes it expanded, in the order it expanded them, with the prefix each one was
      entered under. */
  datatype WalkResult = WalkResult(entries: seq<EnumEntry>, visited: set<TypeId>,
                                   expanded: seq<TypeId>, prefixes: seq<string>)

  predicate EntriesTyped(reg: Registry, entries: seq<EnumEntry>) {
    forall k :: 0 <= k < |entries| ==> entries[k].enumType in reg && reg[entries[k].enumType].isEnum
  }

  /** collectEnumFields(clazz, prompt, prefix, visited). */
  function Walk(reg: Registry, clazz: TypeId, prefix: string, visited: set<TypeId>): (r: WalkResult)
    requires Closed(reg) && clazz in reg && visited <= reg.Keys
    ensures visited <= r.visited <= reg.Keys
    ensures EntriesTyped(reg, r.entries)
    decreases |reg.Keys - visited|, 0, 0, 0
  {
    if clazz in visited then WalkResult([], visited, [], [])
    else
      CardinalityDrops(reg.Keys, visited, visited + {clazz}, clazz);
      var inner := WalkFields(reg, clazz, 0, prefix, visited + {clazz});
      WalkResult(inner.entries, inner.visited, [clazz] + inner.expanded, [prefix] + inner.prefixes)
  }

  /** What field i of `clazz` contributes: a line for an enum field, the walk of a model
      class, nothing otherwise. */
  function FieldStep(reg: Registry, clazz: TypeId, i: nat, prefix: string, visited: set<TypeId>)
    : (r: WalkResult)
    requires Closed(reg) && clazz in reg && visited <= reg.Keys
    requires i < |reg[clazz].declaredFields|
    ensures visited <= r.visited <= reg.Keys
    ensures EntriesTyped(reg, r.entries)
    decreases |reg.Keys - visited|, 1, |reg[clazz].declaredFields| - i, 0
  {
    var field := reg[clazz].declaredFields[i];
    var fieldName := QualifiedName(prefix, field.name);
    var info := reg[field.fieldType];
    if info.isEnum then WalkResult([EnumEntry(fieldName, field.fieldType)], visited, [], [])
    else if IsModelClass(info) then Walk(reg, field.fieldType, fieldName, visited)
    else WalkResult([], visited, [], [])
  }

  /** The loop over the declared fields of `clazz`, from field i on. */
  function WalkFields(reg: Registry, clazz: TypeId, i: nat, prefix: string, visited: set<TypeId>)
    : (r: WalkResult)
    requires Closed(reg) && clazz in reg && visited <= reg.Keys
    requires i <= |reg[clazz].declaredFields|
    ensures visited <= r.visited <= reg.Keys
    ensures EntriesTyped(reg, r.entries)
    decreases |reg.Keys - visited|, 1, |reg[clazz].declaredFields| - i, 1
  {
    if i == |reg[clazz].declaredFields| then WalkResult([], visited, [], [])
    else
      var head := FieldStep(reg, clazz, i, prefix, visited);
      SubsetCard(reg.Keys - head.visited, reg.Keys - visited);
      var rest := WalkFields(reg, clazz, i + 1, prefix, head.visited);
      WalkResult(head.entries + rest.entries, rest.visited, head.expanded + rest.expanded,
                 head.prefixes + rest.prefixes)
  }

  const Bullet: string := "  - "
  const TypeOpen: string := " ("
  const TypeClose: string := "): "
  const NewLine: string := "\n"

  /** The line written for one enum field. */
  function EnumLine(reg: Registry, entry: EnumEntry): string
    requires entry.enumType in reg && reg[entry.enumType].isEnum
  {
    var e := reg[entry.enumType];
    Bullet + entry.path + TypeOpen + e.simpleName + TypeClose + GetEnumValues(e) + NewLine
  }

  function Render(reg: Registry, entries: seq<EnumEntry>): string
    requires EntriesTyped(reg, entries)
  {
    if |entries| == 0 then "" else EnumLine(reg, entries[0]) + Render(reg, entries[1..])
  }

  /** getEnumConstraintsPrompt(targetClass). */
  function EnumConstraintsPrompt(reg: Registry, targetClass: TypeId): string
    requires Closed(reg) && targetClass in reg
  {
    var written := Header + Render(reg, Walk(reg, targetClass, "", {}).entries);
    if |written| > |Header| then written + Closing else written
  }

  // ---------------------------------------------------------------------------
  // The Java methods

  /** The StringBuilder and the HashSet that one getEnumConstraintsPrompt call shares
      across the whole recursive walk. */
  class EnumCollector {
    const reg: Registry
    var prompt: string
    var visited: set<TypeId>

    constructor (reg: Registry)
      ensures this.reg == reg && prompt == Header && visited == {}
    {
      this.reg := reg;
      prompt := Header;
      visited := {};
    }

    /** collectEnumFields: appends the walk's lines to the shared prompt and grows the
        shared visited set exactly as the walk function says. */
    method CollectEnumFields(clazz: TypeId, prefix: string)
      requires Closed(reg) && clazz in reg && visited <= reg.Keys
      modifies this
      ensures var w := Walk(reg, clazz, prefix, old(visited));
        visited == w.visited && prompt == old(prompt) + Render(reg, w.entries)
      decreases |reg.Keys - visited|
    {
      if clazz in visited {
        assert prompt + Render(reg, []) == prompt;
        return;
      }
      ghost var before := visited;
      visited := visited + {clazz};
      ghost var whole := WalkFields(reg, clazz, 0, prefix, visited);
      ghost var done: seq<EnumEntry> := [];
      var fields := reg[clazz].declaredFields;
      var i := 0;
      while i < |fields|
        invariant i <= |fields| && before + {clazz} <= visited
        invariant FieldsRemaining(reg, clazz, i, prefix, visited, done, whole)
        invariant prompt == old(prompt) + Render(reg, done)
      {
        ghost var step := FieldStep(reg, clazz, i, prefix, visited);
        FieldsRemainingStep(reg, clazz, i, prefix, visited, done, whole);
        CardinalityDrops(reg.Keys, before, visited, clazz);
        var field := fields[i];
        var fieldName := QualifiedName(prefix, field.name);
        var fieldType := reg[field.fieldType];
        if fieldType.isEnum {
          prompt := prompt + EnumLine(reg, EnumEntry(fieldName, field.fieldType));
          SingleRender(reg, EnumEntry(fieldName, field.fieldType));
        } else if IsModelClass(fieldType) {
          CollectEnumFields(field.fieldType, fieldName);
        } else {
          assert prompt + Render(reg, []) == prompt;
        }
        AppendAssoc(old(prompt), Render(reg, done), Render(reg, step.entries));
        done := done + step.entries;
        i := i + 1;
      }
      FieldsRemainingDone(reg, clazz, prefix, visited, done, whole);
      WalkUnfold(reg, clazz, prefix, before);
    }
  }

  /** getEnumConstraintsPrompt: a fresh buffer and visited set, the walk from the target
      class with an empty prefix, and the closing sentence when a line was written. */
  method GetEnumConstraintsPrompt(reg: Registry, targetClass: TypeId) returns (s: string)
    requires Closed(reg) && targetClass in reg
    ensures s == EnumConstraintsPrompt(reg, targetClass)
  {
    var collector := new EnumCollector(reg);
    collector.CollectEnumFields(targetClass, "");
    s := collector.prompt;
    if |s| > |Header| {
      s := s + Closing;
    }
  }

  // ---------------------------------------------------------------------------
  // Helpers

  lemma {:induction false} SubsetCard<T>(a: set<T>, b: set<T>)
    requires a <= b
    ensures |a| <= |b|
    decreases |b|
  {
    if a != {} {
      var x :| x in a;
      SubsetCard(a - {x}, b - {x});
    }
  }

  /** Marking a fresh class visited shrinks the set of classes still to expand. */
  lemma CardinalityDrops<T>(keys: set<T>, before: set<T>, after: set<T>, x: T)
    requires x in keys && x !in before && before + {x} <= after
    ensures |keys - after| < |keys - before|
  {
    SubsetCard(keys - after, (keys - before) - {x});
    assert (keys - before) - {x} + {x} == keys - before;
  }

  /** The state of collectEnumFields' loop over the fields of `clazz` before field i: the
      lines written so far followed by what the remaining fields contribute are the lines
      of the whole loop. */
  ghost predicate FieldsRemaining(reg: Registry, clazz: TypeId, i: nat, prefix: string, visited: set<TypeId>,
                                  done: seq<EnumEntry>, whole: WalkResult)
  {
    Closed(reg) && clazz in reg && visited <= reg.Keys && i <= |reg[clazz].declaredFields| &&
    EntriesTyped(reg, done) &&
    whole.entries == done + WalkFields(reg, clazz, i, prefix, visited).entries &&
    whole.visited == WalkFields(reg, clazz, i, prefix, visited).visited
  }

  lemma FieldsRemainingStep(reg: Registry, clazz: TypeId, i: nat, prefix: string, visited: set<TypeId>,
                            done: seq<EnumEntry>, whole: WalkResult)
    requires FieldsRemaining(reg, clazz, i, prefix, visited, done, whole)
    requires i < |reg[clazz].declaredFields|
    ensures var step := FieldStep(reg, clazz, i, prefix, visited);
      FieldsRemaining(reg, clazz, i + 1, prefix, step.visited, done + step.entries, whole) &&
      Render(reg, done + step.entries) == Render(reg, done) + Render(reg, step.entries)
  {
    var step := FieldStep(reg, clazz, i, prefix, visited);
    var next := WalkFields(reg, clazz, i + 1, prefix, step.visited);
    WalkFieldsUnfold(reg, clazz, i, prefix, visited);
    RenderAppend(reg, done, step.entries);
    assert done + (step.entries + next.entries) == (done + step.entries) + next.entries;
  }

  lemma FieldsRemainingDone(reg: Registry, clazz: TypeId, prefix: string, visited: set<TypeId>,
                            done: seq<EnumEntry>, whole: WalkResult)
    requires clazz in reg
    requires FieldsRemaining(reg, clazz, |reg[clazz].declaredFields|, prefix, visited, done, whole)
    ensures whole.entries == done && whole.visited == visited
  {
    assert done + [] == done;
  }

  lemma WalkUnfold(reg: Registry, clazz: TypeId, prefix: string, visited: set<TypeId>)
    requires Closed(reg) && clazz in reg && visited <= reg.Keys && clazz !in visited
    ensures var inner := WalkFields(reg, clazz, 0, prefix, visited + {clazz});
      Walk(reg, clazz, prefix, visited).entries == inner.entries &&
      Walk(reg, clazz, prefix, visited).visited == inner.visited
  {
  }

  lemma WalkFieldsUnfold(reg: Registry, clazz: TypeId, i: nat, prefix: string, visited: set<TypeId>)
    requires Closed(reg) && clazz in reg && visited <= reg.Keys
    requires i < |reg[clazz].declaredFields|
    ensures var step := FieldStep(reg, clazz, i, prefix, visited);
      var rest := WalkFields(reg, clazz, i + 1, prefix, step.visited);
      WalkFields(reg, clazz, i, prefix, visited).entries == step.entries + rest.entries &&
      WalkFields(reg, clazz, i, prefix, visited).visited == rest.visited
  {
  }

  lemma AppendAssoc<T>(a: seq<T>, b: seq<T>, c: seq<T>)
    ensures (a + b) + c == a + (b + c)
  {
  }

  lemma SingleRender(reg: Registry, entry: EnumEntry)
    requires entry.enumType in reg && reg[entry.enumType].isEnum
    ensures EntriesTyped(reg, [entry]) && Render(reg, [entry]) == EnumLine(reg, entry)
  {
  }

  lemma {:induction false} RenderAppend(reg: Registry, a: seq<EnumEntry>, b: seq<EnumEntry>)
    requires EntriesTyped(reg, a) && EntriesTyped(reg, b)
    ensures EntriesTyped(reg, a + b)
    ensures Render(reg, a + b) == Render(reg, a) + Render(reg, b)
  {
    if a == [] {
      assert a + b == b;
    } else {
      assert (a + b)[1..] == a[1..] + b;
      RenderAppend(reg, a[1..], b);
      AppendAssoc(EnumLine(reg, a[0]), Render(reg, a[1..]), Render(reg, b));
    }
  }
}
