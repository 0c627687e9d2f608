/** What the enum walk promises: the frame of the constraint text, one expansion per class
    however the classes refer to each other, descent into model classes only, dotted paths,
    one line per enum field reached, and the constants in declaration order. */
module SchemaManagerProperties {
  import opened Wrappers
  import opened JavaString
  import opened SchemaManager

  // ---------------------------------------------------------------------------
  // The frame of the text

  /** A constraint line is never empty, so no line was written exactly when no entry was
      found. */
  lemma {:induction false} RenderEmptyIff(reg: Registry, entries: seq<EnumEntry>)
    requires EntriesTyped(reg, entries)
    ensures Render(reg, entries) == [] <==> entries == []
  {
    if entries != [] {
      var line := EnumLine(reg, entries[0]);
      assert line[0] == Bullet[0];
    }
  }

  /** The text opens with the header, then the lines of the walk from the target class with
      an empty prefix; the closing sentence follows exactly when a line was written, so it
      ends the text exactly then. */
  lemma PromptShape(reg: Registry, t: TypeId)
    requires Closed(reg) && t in reg
    ensures var entries := Walk(reg, t, "", {}).entries;
      EnumConstraintsPrompt(reg, t) == Header + Render(reg, entries) + (if entries == [] then [] else Closing) &&
      StartsWith(EnumConstraintsPrompt(reg, t), Header) &&
      (EndsWith(EnumConstraintsPrompt(reg, t), Closing) <==> entries != [])
  {
    var entries := Walk(reg, t, "", {}).entries;
    var body := Render(reg, entries);
    var written := Header + body;
    var text := EnumConstraintsPrompt(reg, t);
    assert text == if |written| > |Header| then written + Closing else written;
    RenderEmptyIff(reg, entries);
    if entries == [] {
      assert written == Header && text == Header;
      assert written + [] == written;
      assert |Header| < |Closing|;
    } else {
      assert |body| > 0;
      AppendAssoc(Header, body, Closing);
      assert text[..|Header|] == Header;
      assert text[|text| - |Closing|..] == Closing;
    }
  }

  // ---------------------------------------------------------------------------
  // One expansion per class

  ghost predicate Distinct(xs: seq<TypeId>) {
    forall i, j :: 0 <= i < j < |xs| ==> xs[i] != xs[j]
  }

  /** The classes a walk expanded: none twice, none visited before it, and the visited set
      after it is the one before with exactly these added. */
  ghost predicate ExpandsFresh(visited: set<TypeId>, r: WalkResult) {
    Distinct(r.expanded) &&
    (forall k :: 0 <= k < |r.expanded| ==> r.expanded[k] !in visited) &&
    r.visited == visited + (set x | x in r.expanded)
  }

  ghost predicate AllModelClasses(reg: Registry, xs: seq<TypeId>) {
    forall k :: 0 <= k < |xs| ==> xs[k] in reg && IsModelClass(reg[xs[k]])
  }

  /** Expanding `clazz` and then what its fields expanded keeps the expansions fresh. */
  lemma ConsFresh(reg: Registry, visited: set<TypeId>, clazz: TypeId, prefix: string, inner: WalkResult)
    requires clazz !in visited
    requires ExpandsFresh(visited + {clazz}, inner) && AllModelClasses(reg, inner.expanded)
    ensures var r := WalkResult(inner.entries, inner.visited, [clazz] + inner.expanded, [prefix] + inner.prefixes);
      ExpandsFresh(visited, r) && r.expanded[1..] == inner.expanded
  {
    var xs := [clazz] + inner.expanded;
    assert forall k :: 1 <= k < |xs| ==> xs[k] == inner.expanded[k - 1];
    assert (set x | x in xs) == {clazz} + (set x | x in inner.expanded);
    assert xs[1..] == inner.expanded;
  }

  /** What one field expanded, then what the later fields expanded, keeps them fresh. */
  lemma ConcatFresh(reg: Registry, visited: set<TypeId>, head: WalkResult, rest: WalkResult)
    requires ExpandsFresh(visited, head) && AllModelClasses(reg, head.expanded)
    requires ExpandsFresh(head.visited, rest) && AllModelClasses(reg, rest.expanded)
    ensures var r := WalkResult(head.entries + rest.entries, rest.visited, head.expanded + rest.expanded,
                                head.prefixes + rest.prefixes);
      ExpandsFresh(visited, r) && AllModelClasses(reg, r.expanded)
  {
    var xs := head.expanded + rest.expanded;
    var n := |head.expanded|;
    assert forall k :: n <= k < |xs| ==> xs[k] == rest.expanded[k - n];
    assert forall k :: 0 <= k < n ==> xs[k] in head.visited;
    assert (set x | x in xs) == (set x | x in head.expanded) + (set x | x in rest.expanded);
  }

  /** A walk of an unvisited class expands it first and then only model classes, each one
      once; a walk of a visited class expands nothing. */
  lemma {:induction false} WalkExpandsOnce(reg: Registry, clazz: TypeId, prefix: string, visited: set<TypeId>)
    requires Closed(reg) && clazz in reg && visited <= reg.Keys
    ensures var r := Walk(reg, clazz, prefix, visited);
      ExpandsFresh(visited, r) &&
      (clazz in visited ==> r.expanded == []) &&
      (clazz !in visited ==> |r.expanded| >= 1 && r.expanded[0] == clazz &&
                             AllModelClasses(reg, r.expanded[1..]))
    decreases |reg.Keys - visited|, 0, 0, 0
  {
    var r := Walk(reg, clazz, prefix, visited);
    if clazz in visited {
      assert (set x | x in r.expanded) == {};
    } else {
      var v := visited + {clazz};
      CardinalityDrops(reg.Keys, visited, v, clazz);
      WalkFieldsExpandsOnce(reg, clazz, 0, prefix, v);
      var inner := WalkFields(reg, clazz, 0, prefix, v);
      assert r == WalkResult(inner.entries, inner.visited, [clazz] + inner.expanded, [prefix] + inner.prefixes);
      ConsFresh(reg, visited, clazz, prefix, inner);
    }
  }

  lemma {:induction false} FieldStepExpandsOnce(reg: Registry, clazz: TypeId, i: nat, prefix: string,
                                                visited: set<TypeId>)
    requires Closed(reg) && clazz in reg && visited <= reg.Keys
    requires i < |reg[clazz].declaredFields|
    ensures var r := FieldStep(reg, clazz, i, prefix, visited);
      ExpandsFresh(visited, r) && AllModelClasses(reg, r.expanded)
    decreases |reg.Keys - visited|, 1, |reg[clazz].declaredFields| - i, 0
  {
    var field := reg[clazz].declaredFields[i];
    var info := reg[field.fieldType];
    var r := FieldStep(reg, clazz, i, prefix, visited);
    if !info.isEnum && IsModelClass(info) {
      WalkExpandsOnce(reg, field.fieldType, QualifiedName(prefix, field.name), visited);
      if r.expanded != [] {
        assert r.expanded == [r.expanded[0]] + r.expanded[1..];
      }
    } else {
      assert r.expanded == [];
      assert (set x | x in r.expanded) == {};
    }
  }

  lemma {:induction false} WalkFieldsExpandsOnce(reg: Registry, clazz: TypeId, i: nat, prefix: string,
                                                 visited: set<TypeId>)
    requires Closed(reg) && clazz in reg && visited <= reg.Keys
    requires i <= |reg[clazz].declaredFields|
    ensures var r := WalkFields(reg, clazz, i, prefix, visited);
      ExpandsFresh(visited, r) && AllModelClasses(reg, r.expanded)
    decreases |reg.Keys - visited|, 1, |reg[clazz].declaredFields| - i, 1
  {
    var r := WalkFields(reg, clazz, i, prefix, visited);
    if i == |reg[clazz].declaredFields| {
      assert r.expanded == [];
      assert (set x | x in r.expanded) == {};
    } else {
      var head := FieldStep(reg, clazz, i, prefix, visited);
      FieldStepExpandsOnce(reg, clazz, i, prefix, visited);
      SubsetCard(reg.Keys - head.visited, reg.Keys - visited);
      WalkFieldsExpandsOnce(reg, clazz, i + 1, prefix, head.visited);
      var rest := WalkFields(reg, clazz, i + 1, prefix, head.visited);
      assert r == WalkResult(head.entries + rest.entries, rest.visited, head.expanded + rest.expanded,
                             head.prefixes + rest.prefixes);
      ConcatFresh(reg, visited, head, rest);
    }
  }

  /** getEnumConstraintsPrompt expands the target class first, then only model classes,
      and no class twice, whatever cycles the fields make. */
  lemma EachClassOnce(reg: Registry, t: TypeId)
    requires Closed(reg) && t in reg
    ensures var r := Walk(reg, t, "", {});
      Distinct(r.expanded) && |r.expanded| >= 1 && r.expanded[0] == t &&
      AllModelClasses(reg, r.expanded[1..]) &&
      r.visited == (set x | x in r.expanded)
  {
    WalkExpandsOnce(reg, t, "", {});
  }

  // ---------------------------------------------------------------------------
  // Paths

  /** Every line below a non-empty prefix carries that prefix and a dot. */
  ghost predicate PathsUnder(entries: seq<EnumEntry>, prefix: string) {
    prefix != [] ==> forall k :: 0 <= k < |entries| ==> StartsWith(entries[k].path, prefix + Dot)
  }

  lemma StartsWithLonger(s: string, a: string, b: string)
    requires StartsWith(s, a + b)
    ensures StartsWith(s, a)
  {
    assert s[..|a|] == (a + b)[..|a|];
  }

  lemma {:induction false} WalkPaths(reg: Registry, clazz: TypeId, prefix: string, visited: set<TypeId>)
    requires Closed(reg) && clazz in reg && visited <= reg.Keys
    ensures PathsUnder(Walk(reg, clazz, prefix, visited).entries, prefix)
    decreases |reg.Keys - visited|, 0, 0, 0
  {
    if clazz !in visited {
      var v := visited + {clazz};
      CardinalityDrops(reg.Keys, visited, v, clazz);
      WalkFieldsPaths(reg, clazz, 0, prefix, v);
    }
  }

  lemma {:induction false} FieldStepPaths(reg: Registry, clazz: TypeId, i: nat, prefix: string,
                                          visited: set<TypeId>)
    requires Closed(reg) && clazz in reg && visited <= reg.Keys
    requires i < |reg[clazz].declaredFields|
    ensures PathsUnder(FieldStep(reg, clazz, i, prefix, visited).entries, prefix)
    decreases |reg.Keys - visited|, 1, |reg[clazz].declaredFields| - i, 0
  {
    var field := reg[clazz].declaredFields[i];
    var name := QualifiedName(prefix, field.name);
    var info := reg[field.fieldType];
    if prefix != [] {
      assert name == prefix + Dot + field.name;
      assert StartsWith(name, prefix + Dot);
      if !info.isEnum && IsModelClass(info) {
        WalkPaths(reg, field.fieldType, name, visited);
        var entries := FieldStep(reg, clazz, i, prefix, visited).entries;
        forall k | 0 <= k < |entries|
          ensures StartsWith(entries[k].path, prefix + Dot)
        {
          assert StartsWith(entries[k].path, name + Dot);
          assert name + Dot == prefix + Dot + (field.name + Dot);
          StartsWithLonger(entries[k].path, prefix + Dot, field.name + Dot);
        }
      }
    }
  }

  lemma {:induction false} WalkFieldsPaths(reg: Registry, clazz: TypeId, i: nat, prefix: string,
                                           visited: set<TypeId>)
    requires Closed(reg) && clazz in reg && visited <= reg.Keys
    requires i <= |reg[clazz].declaredFields|
    ensures PathsUnder(WalkFields(reg, clazz, i, prefix, visited).entries, prefix)
    decreases |reg.Keys - visited|, 1, |reg[clazz].declaredFields| - i, 1
  {
    if i < |reg[clazz].declaredFields| {
      var head := FieldStep(reg, clazz, i, prefix, visited);
      FieldStepPaths(reg, clazz, i, prefix, visited);
      SubsetCard(reg.Keys - head.visited, reg.Keys - visited);
      WalkFieldsPaths(reg, clazz, i + 1, prefix, head.visited);
      var rest := WalkFields(reg, clazz, i + 1, prefix, head.visited);
      var entries := head.entries + rest.entries;
      if prefix != [] {
        forall k | 0 <= k < |entries|
          ensures StartsWith(entries[k].path, prefix + Dot)
        {
          if k >= |head.entries| {
            assert entries[k] == rest.entries[k - |head.entries|];
          }
        }
      }
    }
  }

  // ---------------------------------------------------------------------------
  // Every enum field of an expanded class gets its line

  lemma {:induction false} WalkFieldsListsEnum(reg: Registry, clazz: TypeId, i: nat, prefix: string,
                                               visited: set<TypeId>, k: nat)
    requires Closed(reg) && clazz in reg && visited <= reg.Keys
    requires i <= k < |reg[clazz].declaredFields|
    requires reg[reg[clazz].declaredFields[k].fieldType].isEnum
    ensures var f := reg[clazz].declaredFields[k];
      EnumEntry(QualifiedName(prefix, f.name), f.fieldType) in WalkFields(reg, clazz, i, prefix, visited).entries
    decreases k - i
  {
    var head := FieldStep(reg, clazz, i, prefix, visited);
    var rest := WalkFields(reg, clazz, i + 1, prefix, head.visited);
    assert WalkFields(reg, clazz, i, prefix, visited).entries == head.entries + rest.entries;
    if i < k {
      WalkFieldsListsEnum(reg, clazz, i + 1, prefix, head.visited, k);
    } else {
      var f := reg[clazz].declaredFields[k];
      assert head.entries == [EnumEntry(QualifiedName(prefix, f.name), f.fieldType)];
    }
  }

  /** Each directly declared enum field of the target class is listed under its own name,
      so such a field always brings the closing sentence. */
  lemma DirectEnumListed(reg: Registry, t: TypeId, k: nat)
    requires Closed(reg) && t in reg
    requires k < |reg[t].declaredFields| && reg[reg[t].declaredFields[k].fieldType].isEnum
    ensures var f := reg[t].declaredFields[k];
      EnumEntry(f.name, f.fieldType) in Walk(reg, t, "", {}).entries &&
      EndsWith(EnumConstraintsPrompt(reg, t), Closing)
  {
    WalkUnfold(reg, t, "", {});
    assert {} + {t} == {t};
    WalkFieldsListsEnum(reg, t, 0, "", {t}, k);
    PromptShape(reg, t);
  }

  // ---------------------------------------------------------------------------
  // The lines are exactly the enum fields of the expanded classes

  /** The line field i of `clazz` asks for when the class is entered under `prefix`. */
  function FieldEnum(reg: Registry, clazz: TypeId, i: nat, prefix: string): seq<EnumEntry>
    requires Closed(reg) && clazz in reg && i < |reg[clazz].declaredFields|
  {
    var f := reg[clazz].declaredFields[i];
    if reg[f.fieldType].isEnum then [EnumEntry(QualifiedName(prefix, f.name), f.fieldType)] else []
  }

  /** The lines the enum fields of `clazz` from field i on ask for, in declaration order. */
  function DirectEnums(reg: Registry, clazz: TypeId, i: nat, prefix: string): seq<EnumEntry>
    requires Closed(reg) && clazz in reg && i <= |reg[clazz].declaredFields|
    decreases |reg[clazz].declaredFields| - i
  {
    if i == |reg[clazz].declaredFields| then []
    else FieldEnum(reg, clazz, i, prefix) + DirectEnums(reg, clazz, i + 1, prefix)
  }

  ghost predicate AllKnown(reg: Registry, xs: seq<TypeId>) {
    forall k :: 0 <= k < |xs| ==> xs[k] in reg
  }

  /** The direct enum lines of each class in `xs`, entered under the matching prefix. */
  function ExpandedEnums(reg: Registry, xs: seq<TypeId>, ps: seq<string>): seq<EnumEntry>
    requires Closed(reg) && |xs| == |ps| && AllKnown(reg, xs)
  {
    if xs == [] then [] else DirectEnums(reg, xs[0], 0, ps[0]) + ExpandedEnums(reg, xs[1..], ps[1..])
  }

  lemma {:induction false} ExpandedEnumsAppend(reg: Registry, xs: seq<TypeId>, ps: seq<string>,
                                               ys: seq<TypeId>, qs: seq<string>)
    requires Closed(reg) && |xs| == |ps| && AllKnown(reg, xs) && |ys| == |qs| && AllKnown(reg, ys)
    ensures AllKnown(reg, xs + ys)
    ensures ExpandedEnums(reg, xs + ys, ps + qs) == ExpandedEnums(reg, xs, ps) + ExpandedEnums(reg, ys, qs)
  {
    if xs == [] {
      assert xs + ys == ys && ps + qs == qs;
    } else {
      assert (xs + ys)[1..] == xs[1..] + ys && (ps + qs)[1..] == ps[1..] + qs;
      ExpandedEnumsAppend(reg, xs[1..], ps[1..], ys, qs);
    }
  }

  /** The lines of a walk, as a multiset, are `direct` followed by the direct enum lines of
      every class it expanded, under the prefix it entered that class with. */
  ghost predicate ListsExpanded(reg: Registry, r: WalkResult, direct: seq<EnumEntry>) {
    Closed(reg) && |r.prefixes| == |r.expanded| && AllKnown(reg, r.expanded) &&
    multiset(r.entries) == multiset(direct) + multiset(ExpandedEnums(reg, r.expanded, r.prefixes))
  }

  lemma {:induction false} WalkListsEnums(reg: Registry, clazz: TypeId, prefix: string, visited: set<TypeId>)
    requires Closed(reg) && clazz in reg && visited <= reg.Keys
    ensures var r := Walk(reg, clazz, prefix, visited);
      ListsExpanded(reg, r, []) && (r.expanded != [] ==> r.prefixes[0] == prefix)
    decreases |reg.Keys - visited|, 0, 0, 0
  {
    if clazz !in visited {
      var v := visited + {clazz};
      CardinalityDrops(reg.Keys, visited, v, clazz);
      WalkFieldsListsEnums(reg, clazz, 0, prefix, v);
      var inner := WalkFields(reg, clazz, 0, prefix, v);
      var r := Walk(reg, clazz, prefix, visited);
      assert r.expanded == [clazz] + inner.expanded && r.prefixes == [prefix] + inner.prefixes;
      assert r.expanded[1..] == inner.expanded && r.prefixes[1..] == inner.prefixes;
    }
  }

  lemma {:induction false} FieldStepListsEnums(reg: Registry, clazz: TypeId, i: nat, prefix: string,
                                               visited: set<TypeId>)
    requires Closed(reg) && clazz in reg && visited <= reg.Keys
    requires i < |reg[clazz].declaredFields|
    ensures ListsExpanded(reg, FieldStep(reg, clazz, i, prefix, visited), FieldEnum(reg, clazz, i, prefix))
    decreases |reg.Keys - visited|, 1, |reg[clazz].declaredFields| - i, 0
  {
    var field := reg[clazz].declaredFields[i];
    var info := reg[field.fieldType];
    if !info.isEnum && IsModelClass(info) {
      WalkListsEnums(reg, field.fieldType, QualifiedName(prefix, field.name), visited);
    }
  }

  lemma {:induction false} WalkFieldsListsEnums(reg: Registry, clazz: TypeId, i: nat, prefix: string,
                                                visited: set<TypeId>)
    requires Closed(reg) && clazz in reg && visited <= reg.Keys
    requires i <= |reg[clazz].declaredFields|
    ensures ListsExpanded(reg, WalkFields(reg, clazz, i, prefix, visited), DirectEnums(reg, clazz, i, prefix))
    decreases |reg.Keys - visited|, 1, |reg[clazz].declaredFields| - i, 1
  {
    if i < |reg[clazz].declaredFields| {
      var head := FieldStep(reg, clazz, i, prefix, visited);
      FieldStepListsEnums(reg, clazz, i, prefix, visited);
      SubsetCard(reg.Keys - head.visited, reg.Keys - visited);
      WalkFieldsListsEnums(reg, clazz, i + 1, prefix, head.visited);
      var rest := WalkFields(reg, clazz, i + 1, prefix, head.visited);
      ExpandedEnumsAppend(reg, head.expanded, head.prefixes, rest.expanded, rest.prefixes);
    }
  }

  /** Class x was entered under path p through a declared field of `clazz` entered under
      `prefix`: the field has type x and p is the prefix qualified by the field's name. */
  ghost predicate EnteredFrom(reg: Registry, clazz: TypeId, prefix: string, x: TypeId, p: string)
    requires clazz in reg
  {
    exists f :: 0 <= f < |reg[clazz].declaredFields| &&
      reg[clazz].declaredFields[f].fieldType == x && p == QualifiedName(prefix, reg[clazz].declaredFields[f].name)
  }

  /** The k-th expanded class was entered through a field of an earlier one. */
  ghost predicate HasParent(reg: Registry, xs: seq<TypeId>, ps: seq<string>, k: nat)
    requires |xs| == |ps| && AllKnown(reg, xs) && k < |xs|
  {
    exists j :: 0 <= j < k && EnteredFrom(reg, xs[j], ps[j], xs[k], ps[k])
  }

  /** Every class a walk of the fields of `clazz` expanded was entered through a field of an
      earlier expanded class, or through a field of `clazz` itself. */
  ghost predicate Rooted(reg: Registry, r: WalkResult, clazz: TypeId, prefix: string)
    requires clazz in reg
  {
    |r.prefixes| == |r.expanded| && AllKnown(reg, r.expanded) &&
    forall k :: 0 <= k < |r.expanded| ==> RootedAt(reg, r.expanded, r.prefixes, clazz, prefix, k)
  }

  ghost predicate RootedAt(reg: Registry, xs: seq<TypeId>, ps: seq<string>, clazz: TypeId, prefix: string, k: nat)
    requires clazz in reg && |xs| == |ps| && AllKnown(reg, xs) && k < |xs|
  {
    HasParent(reg, xs, ps, k) || EnteredFrom(reg, clazz, prefix, xs[k], ps[k])
  }

  /** A class rooted in what the fields of `clazz` expanded has a parent once `clazz` is put
      first. */
  lemma ConsAt(reg: Registry, clazz: TypeId, prefix: string, ys: seq<TypeId>, qs: seq<string>, k: nat)
    requires clazz in reg && |ys| == |qs| && AllKnown(reg, ys) && k < |ys|
    requires RootedAt(reg, ys, qs, clazz, prefix, k)
    ensures AllKnown(reg, [clazz] + ys) && HasParent(reg, [clazz] + ys, [prefix] + qs, 1 + k)
  {
    if HasParent(reg, ys, qs, k) {
      ParentAfterMore(reg, [clazz], [prefix], ys, qs, k);
    } else {
      ParentIsFirst(reg, clazz, prefix, ys, qs, k);
    }
  }

  /** Rootedness of one class survives appending classes after it... */
  lemma ConcatAtLeft(reg: Registry, clazz: TypeId, prefix: string, xs: seq<TypeId>, ps: seq<string>,
                     ys: seq<TypeId>, qs: seq<string>, k: nat)
    requires clazz in reg && |xs| == |ps| && AllKnown(reg, xs) && |ys| == |qs| && AllKnown(reg, ys) && k < |xs|
    requires RootedAt(reg, xs, ps, clazz, prefix, k)
    ensures AllKnown(reg, xs + ys) && RootedAt(reg, xs + ys, ps + qs, clazz, prefix, k)
  {
    if HasParent(reg, xs, ps, k) {
      ParentBeforeMore(reg, xs, ps, ys, qs, k);
    } else {
      assert (xs + ys)[k] == xs[k] && (ps + qs)[k] == ps[k];
    }
  }

  /** ... and prepending classes before it. */
  lemma ConcatAtRight(reg: Registry, clazz: TypeId, prefix: string, xs: seq<TypeId>, ps: seq<string>,
                      ys: seq<TypeId>, qs: seq<string>, k: nat)
    requires clazz in reg && |xs| == |ps| && AllKnown(reg, xs) && |ys| == |qs| && AllKnown(reg, ys) && k < |ys|
    requires RootedAt(reg, ys, qs, clazz, prefix, k)
    ensures AllKnown(reg, xs + ys) && RootedAt(reg, xs + ys, ps + qs, clazz, prefix, |xs| + k)
  {
    if HasParent(reg, ys, qs, k) {
      ParentAfterMore(reg, xs, ps, ys, qs, k);
    } else {
      assert (xs + ys)[|xs| + k] == ys[k] && (ps + qs)[|xs| + k] == qs[k];
    }
  }

  /** A parent found in `xs` is still one after more classes are appended. */
  lemma ParentBeforeMore(reg: Registry, xs: seq<TypeId>, ps: seq<string>, ys: seq<TypeId>, qs: seq<string>,
                         k: nat)
    requires |xs| == |ps| && AllKnown(reg, xs) && |ys| == |qs| && AllKnown(reg, ys) && k < |xs|
    requires HasParent(reg, xs, ps, k)
    ensures AllKnown(reg, xs + ys) && HasParent(reg, xs + ys, ps + qs, k)
  {
    var j :| 0 <= j < k && EnteredFrom(reg, xs[j], ps[j], xs[k], ps[k]);
    assert (xs + ys)[j] == xs[j] && (ps + qs)[j] == ps[j];
    assert (xs + ys)[k] == xs[k] && (ps + qs)[k] == ps[k];
  }

  /** A parent found in `ys` is still one after classes are prepended. */
  lemma ParentAfterMore(reg: Registry, xs: seq<TypeId>, ps: seq<string>, ys: seq<TypeId>, qs: seq<string>,
                        k: nat)
    requires |xs| == |ps| && AllKnown(reg, xs) && |ys| == |qs| && AllKnown(reg, ys) && k < |ys|
    requires HasParent(reg, ys, qs, k)
    ensures AllKnown(reg, xs + ys) && HasParent(reg, xs + ys, ps + qs, |xs| + k)
  {
    var n := |xs|;
    var j :| 0 <= j < k && EnteredFrom(reg, ys[j], qs[j], ys[k], qs[k]);
    assert (xs + ys)[n + j] == ys[j] && (ps + qs)[n + j] == qs[j];
    assert (xs + ys)[n + k] == ys[k] && (ps + qs)[n + k] == qs[k];
  }

  /** A class entered through a field of `clazz` has `clazz` as its parent once `clazz` is
      put first. */
  lemma ParentIsFirst(reg: Registry, clazz: TypeId, prefix: string, ys: seq<TypeId>, qs: seq<string>, k: nat)
    requires clazz in reg && |ys| == |qs| && AllKnown(reg, ys) && k < |ys|
    requires EnteredFrom(reg, clazz, prefix, ys[k], qs[k])
    ensures AllKnown(reg, [clazz] + ys) && HasParent(reg, [clazz] + ys, [prefix] + qs, 1 + k)
  {
    assert ([clazz] + ys)[0] == clazz && ([prefix] + qs)[0] == prefix;
    assert ([clazz] + ys)[1 + k] == ys[k] && ([prefix] + qs)[1 + k] == qs[k];
  }

  /** Putting `clazz` before what its fields expanded gives every later class a parent. */
  lemma ConsRooted(reg: Registry, clazz: TypeId, prefix: string, inner: WalkResult)
    requires clazz in reg && Rooted(reg, inner, clazz, prefix)
    ensures var xs, ps := [clazz] + inner.expanded, [prefix] + inner.prefixes;
      AllKnown(reg, xs) && forall k :: 1 <= k < |xs| ==> HasParent(reg, xs, ps, k)
  {
    var xs, ps := [clazz] + inner.expanded, [prefix] + inner.prefixes;
    assert AllKnown(reg, xs) by {
      assert forall k :: 1 <= k < |xs| ==> xs[k] == inner.expanded[k - 1];
    }
    forall k | 1 <= k < |xs|
      ensures HasParent(reg, xs, ps, k)
    {
      ConsAt(reg, clazz, prefix, inner.expanded, inner.prefixes, k - 1);
    }
  }

  /** What one field expanded, then what the later fields expanded, stays rooted. */
  lemma ConcatRooted(reg: Registry, clazz: TypeId, prefix: string, head: WalkResult, rest: WalkResult)
    requires clazz in reg && Rooted(reg, head, clazz, prefix) && Rooted(reg, rest, clazz, prefix)
    ensures Rooted(reg, WalkResult(head.entries + rest.entries, rest.visited, head.expanded + rest.expanded,
                                   head.prefixes + rest.prefixes), clazz, prefix)
  {
    var xs, ps := head.expanded + rest.expanded, head.prefixes + rest.prefixes;
    var n := |head.expanded|;
    assert AllKnown(reg, xs) by {
      assert forall k :: n <= k < |xs| ==> xs[k] == rest.expanded[k - n];
    }
    forall k | 0 <= k < |xs|
      ensures RootedAt(reg, xs, ps, clazz, prefix, k)
    {
      if k < n {
        ConcatAtLeft(reg, clazz, prefix, head.expanded, head.prefixes, rest.expanded, rest.prefixes, k);
      } else {
        ConcatAtRight(reg, clazz, prefix, head.expanded, head.prefixes, rest.expanded, rest.prefixes, k - n);
      }
    }
  }

  lemma {:induction false} WalkEntersThroughFields(reg: Registry, clazz: TypeId, prefix: string,
                                                   visited: set<TypeId>)
    requires Closed(reg) && clazz in reg && visited <= reg.Keys
    ensures var r := Walk(reg, clazz, prefix, visited);
      |r.prefixes| == |r.expanded| && AllKnown(reg, r.expanded) &&
      (r.expanded != [] ==> r.expanded[0] == clazz && r.prefixes[0] == prefix) &&
      forall k :: 1 <= k < |r.expanded| ==> HasParent(reg, r.expanded, r.prefixes, k)
    decreases |reg.Keys - visited|, 0, 0, 0
  {
    if clazz !in visited {
      var v := visited + {clazz};
      CardinalityDrops(reg.Keys, visited, v, clazz);
      WalkFieldsEnterThroughFields(reg, clazz, 0, prefix, v);
      var inner := WalkFields(reg, clazz, 0, prefix, v);
      var r := Walk(reg, clazz, prefix, visited);
      assert r.expanded == [clazz] + inner.expanded && r.prefixes == [prefix] + inner.prefixes;
      ConsRooted(reg, clazz, prefix, inner);
    }
  }

  lemma {:induction false} FieldStepEntersThroughFields(reg: Registry, clazz: TypeId, i: nat, prefix: string,
                                                        visited: set<TypeId>)
    requires Closed(reg) && clazz in reg && visited <= reg.Keys
    requires i < |reg[clazz].declaredFields|
    ensures Rooted(reg, FieldStep(reg, clazz, i, prefix, visited), clazz, prefix)
    decreases |reg.Keys - visited|, 1, |reg[clazz].declaredFields| - i, 0
  {
    var field := reg[clazz].declaredFields[i];
    var info := reg[field.fieldType];
    if !info.isEnum && IsModelClass(info) {
      WalkEntersThroughFields(reg, field.fieldType, QualifiedName(prefix, field.name), visited);
      var r := FieldStep(reg, clazz, i, prefix, visited);
      if r.expanded != [] {
        assert EnteredFrom(reg, clazz, prefix, r.expanded[0], r.prefixes[0]);
      }
    }
  }

  lemma {:induction false} WalkFieldsEnterThroughFields(reg: Registry, clazz: TypeId, i: nat, prefix: string,
                                                        visited: set<TypeId>)
    requires Closed(reg) && clazz in reg && visited <= reg.Keys
    requires i <= |reg[clazz].declaredFields|
    ensures Rooted(reg, WalkFields(reg, clazz, i, prefix, visited), clazz, prefix)
    decreases |reg.Keys - visited|, 1, |reg[clazz].declaredFields| - i, 1
  {
    if i < |reg[clazz].declaredFields| {
      var head := FieldStep(reg, clazz, i, prefix, visited);
      FieldStepEntersThroughFields(reg, clazz, i, prefix, visited);
      SubsetCard(reg.Keys - head.visited, reg.Keys - visited);
      WalkFieldsEnterThroughFields(reg, clazz, i + 1, prefix, head.visited);
      var rest := WalkFields(reg, clazz, i + 1, prefix, head.visited);
      ConcatRooted(reg, clazz, prefix, head, rest);
    }
  }

  /** getEnumConstraintsPrompt writes one line for each enum field of each class it
      expanded and no other line: the target class first under the empty path, then model
      classes, none twice, each entered through a field of an earlier one under that
      class's path qualified by the field's name; an enum field is listed under its class's
      path qualified by its own name. */
  lemma LinesAreExpandedEnumFields(reg: Registry, t: TypeId)
    requires Closed(reg) && t in reg
    ensures var r := Walk(reg, t, "", {});
      |r.prefixes| == |r.expanded| && AllKnown(reg, r.expanded) &&
      multiset(r.entries) == multiset(ExpandedEnums(reg, r.expanded, r.prefixes)) &&
      Distinct(r.expanded) && |r.expanded| >= 1 && r.expanded[0] == t && r.prefixes[0] == "" &&
      AllModelClasses(reg, r.expanded[1..]) &&
      forall k :: 1 <= k < |r.expanded| ==> HasParent(reg, r.expanded, r.prefixes, k)
  {
    WalkListsEnums(reg, t, "", {});
    WalkEntersThroughFields(reg, t, "", {});
    EachClassOnce(reg, t);
  }

  /** The line of an entry names the field path, the enum's simple name, and its constants. */
  lemma LineOfEntry(reg: Registry, entries: seq<EnumEntry>, k: nat)
    requires EntriesTyped(reg, entries) && k < |entries|
    ensures var e := reg[entries[k].enumType];
      exists before, after :: Render(reg, entries) == before +
        (Bullet + entries[k].path + TypeOpen + e.simpleName + TypeClose + GetEnumValues(e) + NewLine) + after
  {
    assert entries == entries[..k] + [entries[k]] + entries[k + 1..];
    RenderAppend(reg, entries[..k] + [entries[k]], entries[k + 1..]);
    RenderAppend(reg, entries[..k], [entries[k]]);
    SingleRender(reg, entries[k]);
    var before, after := Render(reg, entries[..k]), Render(reg, entries[k + 1..]);
    assert Render(reg, entries) == before + EnumLine(reg, entries[k]) + after;
  }

  // ---------------------------------------------------------------------------
  // Enum constants

  /** getEnumValues lists exactly the constants getValidEnumValues returns, in that order,
      separated by " | ". */
  lemma EnumValuesInOrder(e: TypeInfo, k: nat)
    requires e.isEnum && 0 < k < |GetValidEnumValues(e)|
    ensures GetEnumValues(e) == Join(JoinSeparator, GetValidEnumValues(e)[..k]) + JoinSeparator +
                                Join(JoinSeparator, GetValidEnumValues(e)[k..])
  {
    JoinSplit(JoinSeparator, e.enumConstants, k);
  }

  /** Validation compares names exactly, case included: for an enum with constants LOW and
      HIGH, "LOW" is accepted while "low", "Low" and "LOW " are not, and null never is. */
  lemma NamesAreCaseSensitive()
    ensures var e := TypeInfo("com.app.Level", "Level", false, true, ["LOW", "HIGH"], []);
      IsValidEnumValue(e, Some("LOW")) && IsValidEnumValue(e, Some("HIGH")) &&
      !IsValidEnumValue(e, Some("low")) && !IsValidEnumValue(e, Some("Low")) &&
      !IsValidEnumValue(e, Some("LOW ")) && !IsValidEnumValue(e, None)
  {
    var e := TypeInfo("com.app.Level", "Level", false, true, ["LOW", "HIGH"], []);
    assert e.enumConstants[0] == "LOW" && e.enumConstants[1] == "HIGH";
    assert "low"[0] != "LOW"[0] && "low"[0] != "HIGH"[0];
    assert "Low"[1] != "LOW"[1] && "Low"[0] != "HIGH"[0];
    assert |"LOW "| != |"LOW"| && "LOW "[0] != "HIGH"[0];
  }

  // ---------------------------------------------------------------------------
  // A cyclic example with a class reached twice

  const OrderId: TypeId := 0
  const CustomerId: TypeId := 1
  const StatusId: TypeId := 2
  const TierId: TypeId := 3

  /** Order { customer: Customer; status: Status; backup: Customer } and
      Customer { order: Order; tier: Tier }, with Status and Tier enums. */
  function ShopRegistry(): Registry {
    map[
      OrderId := TypeInfo("com.shop.Order", "Order", false, false, [],
                          [Field("customer", CustomerId), Field("status", StatusId), Field("backup", CustomerId)]),
      CustomerId := TypeInfo("com.shop.Customer", "Customer", false, false, [],
                             [Field("order", OrderId), Field("tier", TierId)]),
      StatusId := TypeInfo("com.shop.Status", "Status", false, true, ["NEW", "PAID"], []),
      TierId := TypeInfo("com.shop.Tier", "Tier", false, true, ["GOLD", "SILVER"], [])
    ]
  }

  lemma ShopShape()
    ensures Closed(ShopRegistry())
    ensures IsModelClass(ShopRegistry()[OrderId]) && IsModelClass(ShopRegistry()[CustomerId])
    ensures ShopRegistry()[StatusId].isEnum && ShopRegistry()[TierId].isEnum
  {
    var reg := ShopRegistry();
    assert JavaPackage[0] == 'j' && JavaxPackage[0] == 'j' && JakartaPackage[0] == 'j';
    assert StringClassName[0] == 'j';
    assert reg[OrderId].name[0] == 'c' && reg[CustomerId].name[0] == 'c';
  }

  /** The walk ends despite the Order-Customer cycle, and the Tier of the customer reached
      twice is listed once, under the first path. */
  lemma ShopWalk()
    ensures Closed(ShopRegistry())
    ensures Walk(ShopRegistry(), OrderId, "", {}).entries ==
            [EnumEntry("customer.tier", TierId), EnumEntry("status", StatusId)]
  {
    var reg := ShopRegistry();
    ShopShape();
    var both := {OrderId, CustomerId};
    var tier := EnumEntry("customer.tier", TierId);
    var status := EnumEntry("status", StatusId);
    assert QualifiedName("customer", "tier") == "customer.tier";
    assert QualifiedName("", "customer") == "customer";
    assert QualifiedName("", "status") == "status";
    // Customer, entered through the first field of Order: its back reference is visited.
    assert Walk(reg, OrderId, QualifiedName("customer", "order"), both).entries == [];
    assert FieldStep(reg, CustomerId, 0, "customer", both) == WalkResult([], both, [], []);
    assert FieldStep(reg, CustomerId, 1, "customer", both) == WalkResult([tier], both, [], []);
    assert WalkFields(reg, CustomerId, 2, "customer", both) == WalkResult([], both, [], []);
    assert WalkFields(reg, CustomerId, 1, "customer", both).entries == [tier];
    assert WalkFields(reg, CustomerId, 1, "customer", both).visited == both;
    assert WalkFields(reg, CustomerId, 0, "customer", both).entries == [tier];
    assert WalkFields(reg, CustomerId, 0, "customer", both).visited == both;
    assert {OrderId} + {CustomerId} == both;
    var customer := Walk(reg, CustomerId, "customer", {OrderId});
    assert customer.entries == [tier] && customer.visited == both;
    // Order's own fields.
    assert FieldStep(reg, OrderId, 0, "", {OrderId}) == customer;
    assert FieldStep(reg, OrderId, 1, "", both) == WalkResult([status], both, [], []);
    assert Walk(reg, CustomerId, QualifiedName("", "backup"), both).entries == [];
    assert FieldStep(reg, OrderId, 2, "", both).entries == [];
    assert FieldStep(reg, OrderId, 2, "", both).visited == both;
    assert WalkFields(reg, OrderId, 3, "", both).entries == [];
    assert WalkFields(reg, OrderId, 2, "", both).entries == [];
    assert WalkFields(reg, OrderId, 1, "", both).entries == [status];
    assert WalkFields(reg, OrderId, 0, "", {OrderId}).entries == [tier, status];
    assert {} + {OrderId} == {OrderId};
  }
}
