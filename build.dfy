/** The tree builder of auto_proto_doc/model.py and auto_proto_doc/generate.py
    (`_make_message`, `make_enum`, `build_files`) as functions from descriptors
    to document values. The builder methods of module Model are proved to
    produce exactly these values. */
module Build {
  import opened Util
  import opened Descriptor
  import DataTypes
  import opened Doc
  import opened Addressing

  /** What the builder raises: ValueError from `DataType(code)` for a code the
      enum does not have, KeyError from the display table, and IndexError from
      `m.oneof_groups[fld.oneof_index]`. */
  datatype BuildError =
    | UnknownTypeCode(code: int)
    | NoDisplayName(code: int)
    | OneofIndexOutOfRange(index: int)

  // ---------------------------------------------------------------------
  // fields

  /** The `MessageField` built for one field declaration. */
  function MakeField(fd: FieldDescriptor): Result<Field, BuildError> {
    match DataTypes.FromCode(fd.typeCode)
    case None => Err(UnknownTypeCode(fd.typeCode))
    case Some(t) =>
      match DataTypes.DisplayString(t)
      case NotInTable => Err(NoDisplayName(fd.typeCode))
      case Shown(s) => Ok(Field(fd.name, s, true, fd.labelCode == LABEL_REPEATED, ""))
      case UseMessageTypeName => Ok(Field(fd.name, fd.typeName, false, fd.labelCode == LABEL_REPEATED, ""))
  }

  /** How one field declaration is classified: the seven named scalar codes
      get their .proto keyword and are primitive, MESSAGE takes the type name
      verbatim and is not primitive, and every other code fails; `repeated`
      holds exactly for LABEL_REPEATED and the description starts empty. */
  lemma FieldClassification(fd: FieldDescriptor)
    ensures MakeField(fd).Ok? <==> DataTypes.IsNamedCode(fd.typeCode) || fd.typeCode == 11
    ensures MakeField(fd).Ok? ==>
      var f := MakeField(fd).value;
      f.name == fd.name && f.repeated == (fd.labelCode == LABEL_REPEATED) && f.description == ""
      && f.isPrimitive == DataTypes.IsNamedCode(fd.typeCode)
      && f.typ == (if fd.typeCode == 11 then fd.typeName else DataTypes.ProtoKeyword(fd.typeCode))
    ensures MakeField(fd) == Err(NoDisplayName(fd.typeCode)) <==>
      fd.typeCode == 1 || fd.typeCode == 10 || fd.typeCode == 12 || fd.typeCode == 14
    ensures MakeField(fd) == Err(UnknownTypeCode(fd.typeCode)) <==>
      !(1 <= fd.typeCode <= 14) || fd.typeCode == 4 || fd.typeCode == 13
  {
    DataTypes.DisplayStringTable(fd.typeCode);
  }

  /** The result of placing fields: the message's own list and one list per
      oneof group. */
  datatype Placed = Placed(direct: seq<Field>, groups: seq<seq<Field>>)

  /** The field loop of `_make_message` over `fs`, with `groupCount` oneof
      groups already created. */
  function PlaceFields(fs: seq<FieldDescriptor>, groupCount: nat): (r: Result<Placed, BuildError>)
    ensures r.Ok? ==> |r.value.groups| == groupCount
  {
    if fs == [] then Ok(Placed([], seq(groupCount, _ => [])))
    else
      var p :- PlaceFields(fs[..|fs| - 1], groupCount);
      var fd := fs[|fs| - 1];
      var f :- MakeField(fd);
      match fd.oneofIndex
      case None => Ok(p.(direct := p.direct + [f]))
      case Some(i) =>
        match PyIndex(i, groupCount)
        case None => Err(OneofIndexOutOfRange(i))
        case Some(k) => Ok(p.(groups := p.groups[k := p.groups[k] + [f]]))
  }

  /** The reason a single declaration stops the field loop, if any. */
  function FieldFailure(fd: FieldDescriptor, groupCount: nat): Option<BuildError> {
    match MakeField(fd)
    case Err(e) => Some(e)
    case Ok(_) =>
      if fd.oneofIndex.Some? && PyIndex(fd.oneofIndex.value, groupCount).None?
      then Some(OneofIndexOutOfRange(fd.oneofIndex.value)) else None
  }

  /** The declarations with no `oneof_index`, in order. */
  function Unindexed(fs: seq<FieldDescriptor>): seq<FieldDescriptor> {
    if fs == [] then []
    else Unindexed(fs[..|fs| - 1]) + (if fs[|fs| - 1].oneofIndex.None? then [fs[|fs| - 1]] else [])
  }

  /** The declarations whose `oneof_index` selects group `k` of `groupCount`
      (Python indexing, so -1 selects the last group), in order. */
  function Grouped(fs: seq<FieldDescriptor>, groupCount: nat, k: nat): seq<FieldDescriptor> {
    if fs == [] then []
    else
      var fd := fs[|fs| - 1];
      Grouped(fs[..|fs| - 1], groupCount, k)
      + (if fd.oneofIndex.Some? && PyIndex(fd.oneofIndex.value, groupCount) == Some(k) then [fd] else [])
  }

  /** The fields built from declarations that all classify. */
  function MakeAll(fs: seq<FieldDescriptor>): seq<Field>
    requires forall i :: 0 <= i < |fs| ==> MakeField(fs[i]).Ok?
  {
    seq(|fs|, i requires 0 <= i < |fs| => MakeField(fs[i]).value)
  }

  /** Placement succeeds exactly when no declaration fails; otherwise the
      error is the first failing declaration's. */
  lemma {:induction false} PlacementOutcome(fs: seq<FieldDescriptor>, groupCount: nat)
    ensures PlaceFields(fs, groupCount).Ok? <==>
      forall i :: 0 <= i < |fs| ==> FieldFailure(fs[i], groupCount).None?
    ensures PlaceFields(fs, groupCount).Err? ==>
      exists j :: 0 <= j < |fs| && FieldFailure(fs[j], groupCount) == Some(PlaceFields(fs, groupCount).error)
        && forall i :: 0 <= i < j ==> FieldFailure(fs[i], groupCount).None?
  {
    if fs != [] {
      var init := fs[..|fs| - 1];
      PlacementOutcome(init, groupCount);
      assert forall i :: 0 <= i < |init| ==> init[i] == fs[i];
      if PlaceFields(init, groupCount).Err? {
        var j :| 0 <= j < |init| && FieldFailure(init[j], groupCount) == Some(PlaceFields(init, groupCount).error)
          && forall i :: 0 <= i < j ==> FieldFailure(init[i], groupCount).None?;
        assert FieldFailure(fs[j], groupCount) == Some(PlaceFields(fs, groupCount).error);
      }
    }
  }

  /** Once a prefix of the declarations fails, the whole loop fails with
      that error. */
  lemma {:induction false} PlaceFieldsStops(fs: seq<FieldDescriptor>, groupCount: nat, i: nat)
    requires i <= |fs| && PlaceFields(fs[..i], groupCount).Err?
    ensures PlaceFields(fs, groupCount) == PlaceFields(fs[..i], groupCount)
  {
    if i < |fs| {
      var init := fs[..|fs| - 1];
      assert init[..i] == fs[..i];
      PlaceFieldsStops(init, groupCount, i);
    } else {
      assert fs[..i] == fs;
    }
  }

  /** Every declaration in `fs` classifies. */
  predicate AllClassify(fs: seq<FieldDescriptor>) {
    forall i :: 0 <= i < |fs| ==> MakeField(fs[i]).Ok?
  }

  /** `p` holds, in its own list, the fields of exactly the unindexed
      declarations of `fs` and, in group `k`, those of exactly the
      declarations indexed to `k`, each in declaration order. */
  predicate PlacedFrom(p: Placed, fs: seq<FieldDescriptor>, groupCount: nat) {
    AllClassify(Unindexed(fs)) && p.direct == MakeAll(Unindexed(fs))
    && |p.groups| == groupCount
    && forall k :: 0 <= k < groupCount ==>
      AllClassify(Grouped(fs, groupCount, k)) && p.groups[k] == MakeAll(Grouped(fs, groupCount, k))
  }

  lemma MakeAllAppend(xs: seq<FieldDescriptor>, fd: FieldDescriptor)
    requires AllClassify(xs) && MakeField(fd).Ok?
    ensures AllClassify(xs + [fd]) && MakeAll(xs + [fd]) == MakeAll(xs) + [MakeField(fd).value]
  {
    assert forall i :: 0 <= i < |xs| ==> (xs + [fd])[i] == xs[i];
  }

  /** The message's own list holds exactly the unindexed declarations, and
      group `k` exactly the declarations indexed to it, each in declaration
      order. */
  lemma {:induction false} PlacementContents(fs: seq<FieldDescriptor>, groupCount: nat)
    requires PlaceFields(fs, groupCount).Ok?
    ensures AllClassify(fs)
    ensures PlacedFrom(PlaceFields(fs, groupCount).value, fs, groupCount)
  {
    if fs == [] {
      return;
    }
    var init := fs[..|fs| - 1];
    PlacementContents(init, groupCount);
    assert forall i :: 0 <= i < |init| ==> init[i] == fs[i];
    if fs[|fs| - 1].oneofIndex.None? {
      PlaceDirectStep(fs, groupCount);
    } else {
      PlaceGroupStep(fs, groupCount);
    }
  }

  lemma PlaceDirectStep(fs: seq<FieldDescriptor>, groupCount: nat)
    requires fs != [] && fs[|fs| - 1].oneofIndex.None? && PlaceFields(fs, groupCount).Ok?
    requires PlacedFrom(PlaceFields(fs[..|fs| - 1], groupCount).value, fs[..|fs| - 1], groupCount)
    ensures PlacedFrom(PlaceFields(fs, groupCount).value, fs, groupCount)
  {
    var init, fd := fs[..|fs| - 1], fs[|fs| - 1];
    var p0 := PlaceFields(init, groupCount).value;
    var p := PlaceFields(fs, groupCount).value;
    assert p == p0.(direct := p0.direct + [MakeField(fd).value]);
    assert Unindexed(fs) == Unindexed(init) + [fd];
    MakeAllAppend(Unindexed(init), fd);
    forall k | 0 <= k < groupCount
      ensures Grouped(fs, groupCount, k) == Grouped(init, groupCount, k)
    {
    }
  }

  lemma PlaceGroupStep(fs: seq<FieldDescriptor>, groupCount: nat)
    requires fs != [] && fs[|fs| - 1].oneofIndex.Some? && PlaceFields(fs, groupCount).Ok?
    requires PlacedFrom(PlaceFields(fs[..|fs| - 1], groupCount).value, fs[..|fs| - 1], groupCount)
    ensures PlacedFrom(PlaceFields(fs, groupCount).value, fs, groupCount)
  {
    var init, fd := fs[..|fs| - 1], fs[|fs| - 1];
    var p0 := PlaceFields(init, groupCount).value;
    var p := PlaceFields(fs, groupCount).value;
    var k0 := PyIndex(fd.oneofIndex.value, groupCount).value;
    assert p == p0.(groups := p0.groups[k0 := p0.groups[k0] + [MakeField(fd).value]]);
    assert Unindexed(fs) == Unindexed(init);
    forall k | 0 <= k < groupCount
      ensures AllClassify(Grouped(fs, groupCount, k)) && p.groups[k] == MakeAll(Grouped(fs, groupCount, k))
    {
      var g0 := Grouped(init, groupCount, k);
      if k == k0 {
        assert Grouped(fs, groupCount, k) == g0 + [fd];
        MakeAllAppend(g0, fd);
      } else {
        assert Grouped(fs, groupCount, k) == g0;
      }
    }
  }

  /** Adding one element to entry `k` adds one to the total. */
  lemma {:induction false} SumBump(sizes: seq<nat>, k: nat)
    requires k < |sizes|
    ensures Sum(sizes[k := sizes[k] + 1]) == Sum(sizes) + 1
  {
    if k > 0 {
      SumBump(sizes[1..], k - 1);
      assert sizes[k := sizes[k] + 1][1..] == sizes[1..][k - 1 := sizes[1..][k - 1] + 1];
    }
  }

  lemma {:induction false} SumZero(n: nat)
    ensures Sum(seq(n, _ => 0)) == 0
  {
    if n > 0 {
      assert seq(n, _ => 0)[1..] == seq(n - 1, _ => 0);
      SumZero(n - 1);
    }
  }

  function Lengths(gs: seq<seq<Field>>): (r: seq<nat>)
    ensures |r| == |gs| && forall k :: 0 <= k < |gs| ==> r[k] == |gs[k]|
  {
    seq(|gs|, k requires 0 <= k < |gs| => |gs[k]|)
  }

  /** Every declaration lands in exactly one list: the lists hold as many
      fields as the message declares. */
  lemma {:induction false} PlacementCount(fs: seq<FieldDescriptor>, groupCount: nat)
    requires PlaceFields(fs, groupCount).Ok?
    ensures var p := PlaceFields(fs, groupCount).value;
      |p.direct| + Sum(Lengths(p.groups)) == |fs|
  {
    if fs == [] {
      assert Lengths(seq(groupCount, _ => [])) == seq(groupCount, _ => 0);
      SumZero(groupCount);
    } else {
      var init, fd := fs[..|fs| - 1], fs[|fs| - 1];
      PlacementCount(init, groupCount);
      var p0 := PlaceFields(init, groupCount).value;
      if fd.oneofIndex.Some? {
        var k := PyIndex(fd.oneofIndex.value, groupCount).value;
        var f := MakeField(fd).value;
        assert Lengths(p0.groups[k := p0.groups[k] + [f]]) == Lengths(p0.groups)[k := Lengths(p0.groups)[k] + 1];
        SumBump(Lengths(p0.groups), k);
      }
    }
  }

  // ---------------------------------------------------------------------
  // messages and enums

  /** `".".join([name, msg.name])` when a parent name is given, else the
      local name. */
  function QualifiedName(prefix: Option<string>, local: string): (r: string)
    ensures prefix.None? ==> r == local
    ensures prefix.Some? ==> r == prefix.value + "." + local
  {
    match prefix
    case None => local
    case Some(p) => p + "." + local
  }

  /** `ProtoEnum.make_enum`: the bare name and one blank value per value
      declaration. */
  function MakeEnum(ed: EnumDescriptor): (r: Enum)
    ensures r.name == ed.name && r.description == ""
    ensures |r.values| == |ed.values|
    ensures forall i :: 0 <= i < |ed.values| ==> r.values[i] == EnumValue(ed.values[i].name, "")
  {
    Enum(ed.name, seq(|ed.values|, i requires 0 <= i < |ed.values| => EnumValue(ed.values[i].name, "")), "")
  }

  function MakeEnums(eds: seq<EnumDescriptor>): seq<Enum> {
    seq(|eds|, i requires 0 <= i < |eds| => MakeEnum(eds[i]))
  }

  /** The oneof groups: one per declaration, holding the placed fields. */
  function MakeGroups(decls: seq<OneofDescriptor>, placed: seq<seq<Field>>): seq<OneOf>
    requires |placed| == |decls|
  {
    seq(|decls|, k requires 0 <= k < |decls| => OneOf(decls[k].name, placed[k], ""))
  }

  /** `Message._make_message(md, prefix)`: oneof groups, then fields, then
      nested messages named under this message, then enums. */
  function MakeMessage(md: MessageDescriptor, prefix: Option<string>): Result<Message, BuildError>
    decreases md, |md.nestedTypes| + 1
  {
    var name := QualifiedName(prefix, md.name);
    var placed :- PlaceFields(md.fields, |md.oneofDecls|);
    var nested :- MakeNested(md, |md.nestedTypes|, name);
    Ok(Message(name, placed.direct, nested, MakeGroups(md.oneofDecls, placed.groups), MakeEnums(md.enumTypes), ""))
  }

  /** The first `n` nested messages of `parent`, named under `prefix`. */
  function MakeNested(parent: MessageDescriptor, n: nat, prefix: string): Result<seq<Message>, BuildError>
    requires n <= |parent.nestedTypes|
    decreases parent, n
  {
    if n == 0 then Ok([])
    else
      var init :- MakeNested(parent, n - 1, prefix);
      var m :- MakeMessage(parent.nestedTypes[n - 1], Some(prefix));
      Ok(init + [m])
  }

  /** Once a nested message fails, the rest are not built. */
  lemma {:induction false} NestedStops(parent: MessageDescriptor, i: nat, n: nat, prefix: string)
    requires i <= n <= |parent.nestedTypes| && MakeNested(parent, i, prefix).Err?
    ensures MakeNested(parent, n, prefix) == MakeNested(parent, i, prefix)
  {
    if i < n {
      NestedStops(parent, i, n - 1, prefix);
    }
  }

  /** The nested list mirrors the declarations: it is built when every nested
      message builds, and then entry `i` is declaration `i` built under the
      parent's name. */
  lemma {:induction false} NestedAt(parent: MessageDescriptor, n: nat, prefix: string)
    requires n <= |parent.nestedTypes|
    ensures MakeNested(parent, n, prefix).Ok? <==>
      forall i :: 0 <= i < n ==> MakeMessage(parent.nestedTypes[i], Some(prefix)).Ok?
    ensures MakeNested(parent, n, prefix).Ok? ==>
      var ms := MakeNested(parent, n, prefix).value;
      |ms| == n && forall i :: 0 <= i < n ==> MakeMessage(parent.nestedTypes[i], Some(prefix)) == Ok(ms[i])
  {
    if n > 0 {
      NestedAt(parent, n - 1, prefix);
      NestedStep(parent, n, prefix);
      var init, last := MakeNested(parent, n - 1, prefix), MakeMessage(parent.nestedTypes[n - 1], Some(prefix));
      if init.Ok? && last.Ok? {
        var ms := init.value + [last.value];
        forall i | 0 <= i < n
          ensures MakeMessage(parent.nestedTypes[i], Some(prefix)) == Ok(ms[i])
        {
          if i < n - 1 {
            assert ms[i] == init.value[i];
          }
        }
      }
    }
  }

  /** One step of the nested-message loop. */
  lemma NestedStep(parent: MessageDescriptor, n: nat, prefix: string)
    requires 0 < n <= |parent.nestedTypes|
    ensures var init, last := MakeNested(parent, n - 1, prefix), MakeMessage(parent.nestedTypes[n - 1], Some(prefix));
      MakeNested(parent, n, prefix) ==
        if init.Err? then Err(init.error)
        else if last.Err? then Err(last.error)
        else Ok(init.value + [last.value])
  {
  }

  /** Otherwise the result is the error of the first nested message that
      fails to build. */
  lemma {:induction false} NestedError(parent: MessageDescriptor, n: nat, prefix: string)
    requires n <= |parent.nestedTypes|
    ensures MakeNested(parent, n, prefix).Err? ==>
      exists j :: 0 <= j < n && MakeMessage(parent.nestedTypes[j], Some(prefix)) == Err(MakeNested(parent, n, prefix).error)
        && forall i :: 0 <= i < j ==> MakeMessage(parent.nestedTypes[i], Some(prefix)).Ok?
  {
    if n > 0 {
      var init := MakeNested(parent, n - 1, prefix);
      var last := MakeMessage(parent.nestedTypes[n - 1], Some(prefix));
      NestedStep(parent, n, prefix);
      if init.Err? {
        NestedError(parent, n - 1, prefix);
      } else if last.Err? {
        NestedAt(parent, n - 1, prefix);
      }
    }
  }

  /** The shape of a built message: name, lists in declaration order, and
      nested names qualified by this message's name while enums keep theirs. */
  lemma MessageShape(md: MessageDescriptor, prefix: Option<string>)
    ensures MakeMessage(md, prefix).Ok? ==>
      var m := MakeMessage(md, prefix).value;
      m.name == QualifiedName(prefix, md.name)
      && |m.oneofGroups| == |md.oneofDecls|
      && (forall k :: 0 <= k < |md.oneofDecls| ==> m.oneofGroups[k].name == md.oneofDecls[k].name)
      && |m.messages| == |md.nestedTypes|
      && (forall i :: 0 <= i < |md.nestedTypes| ==>
            MakeMessage(md.nestedTypes[i], Some(m.name)) == Ok(m.messages[i])
            && m.messages[i].name == m.name + "." + md.nestedTypes[i].name)
      && m.enums == MakeEnums(md.enumTypes)
      && (forall i :: 0 <= i < |md.enumTypes| ==> m.enums[i].name == md.enumTypes[i].name)
  {
    var name := QualifiedName(prefix, md.name);
    NestedAt(md, |md.nestedTypes|, name);
    if MakeMessage(md, prefix).Ok? {
      var m := MakeMessage(md, prefix).value;
      forall i | 0 <= i < |md.nestedTypes|
        ensures m.messages[i].name == m.name + "." + md.nestedTypes[i].name
      {
        assert MakeMessage(md.nestedTypes[i], Some(name)) == Ok(m.messages[i]);
      }
    }
  }

  /** The message builds exactly when its fields place and every nested
      message builds. */
  lemma MessageOutcome(md: MessageDescriptor, prefix: Option<string>)
    ensures MakeMessage(md, prefix).Ok? <==>
      PlaceFields(md.fields, |md.oneofDecls|).Ok?
      && forall i :: 0 <= i < |md.nestedTypes| ==>
        MakeMessage(md.nestedTypes[i], Some(QualifiedName(prefix, md.name))).Ok?
  {
    NestedAt(md, |md.nestedTypes|, QualifiedName(prefix, md.name));
  }

  ghost predicate IsPrefix(p: string, s: string) {
    |p| <= |s| && s[..|p|] == p
  }

  lemma {:induction false} DescendantsOfPrefix(ms: seq<Message>, p: string)
    requires forall i :: 0 <= i < |ms| ==> IsPrefix(p, ms[i].name)
    requires forall i :: 0 <= i < |ms| ==> forall x :: x in Descendants(ms[i]) ==> IsPrefix(p, x.name)
    ensures forall x :: x in DescendantsOf(ms) ==> IsPrefix(p, x.name)
    decreases ms
  {
    if ms != [] {
      DescendantsOfPrefix(ms[1..], p);
      assert forall i :: 0 <= i < |ms[1..]| ==> ms[1..][i] == ms[i + 1];
    }
  }

  /** Every message nested in a built message, at any depth, is named under
      that message's name. */
  lemma {:induction false} DescendantsQualified(md: MessageDescriptor, prefix: Option<string>)
    requires MakeMessage(md, prefix).Ok?
    ensures var m := MakeMessage(md, prefix).value;
      forall x :: x in Descendants(m) ==> IsPrefix(m.name + ".", x.name)
    decreases md
  {
    var m := MakeMessage(md, prefix).value;
    MessageShape(md, prefix);
    var p := m.name + ".";
    forall i | 0 <= i < |m.messages|
      ensures IsPrefix(p, m.messages[i].name)
      ensures forall x :: x in Descendants(m.messages[i]) ==> IsPrefix(p, x.name)
    {
      var c := m.messages[i];
      assert c.name == p + md.nestedTypes[i].name;
      assert c.name[..|p|] == p;
      DescendantsQualified(md.nestedTypes[i], Some(m.name));
      forall x | x in Descendants(c)
        ensures IsPrefix(p, x.name)
      {
        assert IsPrefix(c.name + ".", x.name);
        assert x.name[..|p|] == (c.name + ".")[..|p|];
      }
    }
    DescendantsOfPrefix(m.messages, p);
  }

  /** A built message carries no description anywhere. */
  lemma {:induction false} MessageBlank(md: MessageDescriptor, prefix: Option<string>)
    requires MakeMessage(md, prefix).Ok?
    ensures EraseMessage(MakeMessage(md, prefix).value) == MakeMessage(md, prefix).value
    decreases md
  {
    var m := MakeMessage(md, prefix).value;
    MessageShape(md, prefix);
    PlacementContents(md.fields, |md.oneofDecls|);
    var placed := PlaceFields(md.fields, |md.oneofDecls|).value;
    forall i | 0 <= i < |m.messages|
      ensures EraseMessage(m.messages[i]) == m.messages[i]
    {
      MessageBlank(md.nestedTypes[i], Some(m.name));
    }
    FieldsBlank(Unindexed(md.fields));
    assert EraseFields(m.fields) == m.fields;
    forall k | 0 <= k < |m.oneofGroups|
      ensures EraseOneOf(m.oneofGroups[k]) == m.oneofGroups[k]
    {
      FieldsBlank(Grouped(md.fields, |md.oneofDecls|, k));
    }
    forall i | 0 <= i < |m.enums|
      ensures EraseEnum(m.enums[i]) == m.enums[i]
    {
      EnumBlank(md.enumTypes[i]);
    }
    var e := EraseMessage(m);
    assert e.messages == m.messages;
    assert e.oneofGroups == m.oneofGroups;
    assert e.enums == m.enums;
  }

  lemma EnumBlank(ed: EnumDescriptor)
    ensures EraseEnum(MakeEnum(ed)) == MakeEnum(ed)
  {
    assert EraseEnum(MakeEnum(ed)).values == MakeEnum(ed).values;
  }

  lemma FieldsBlank(fs: seq<FieldDescriptor>)
    requires forall i :: 0 <= i < |fs| ==> MakeField(fs[i]).Ok?
    ensures EraseFields(MakeAll(fs)) == MakeAll(fs)
  {
  }

  // ---------------------------------------------------------------------
  // files

  /** The top-level messages of a file, which have no prefix. */
  function MakeMessages(mds: seq<MessageDescriptor>): Result<seq<Message>, BuildError> {
    if mds == [] then Ok([])
    else
      var init :- MakeMessages(mds[..|mds| - 1]);
      var m :- MakeMessage(mds[|mds| - 1], None);
      Ok(init + [m])
  }

  lemma {:induction false} MessagesStop(mds: seq<MessageDescriptor>, i: nat)
    requires i <= |mds| && MakeMessages(mds[..i]).Err?
    ensures MakeMessages(mds) == MakeMessages(mds[..i])
  {
    if i < |mds| {
      var init := mds[..|mds| - 1];
      assert init[..i] == mds[..i];
      MessagesStop(init, i);
    } else {
      assert mds[..i] == mds;
    }
  }

  function MakeRpc(md: MethodDescriptor): Rpc {
    Rpc(md.name, md.inputType, md.outputType, "")
  }

  function MakeService(sd: ServiceDescriptor): Service {
    Service(sd.name, seq(|sd.methods|, i requires 0 <= i < |sd.methods| => MakeRpc(sd.methods[i])), "")
  }

  /** One Service per service descriptor, in order. */
  function MakeServices(sds: seq<ServiceDescriptor>): seq<Service> {
    seq(|sds|, i requires 0 <= i < |sds| => MakeService(sds[i]))
  }

  /** The File that `build_files` makes from one proto_file. */
  function BuildFile(fd: FileDescriptor): Result<File, BuildError> {
    var ms :- MakeMessages(fd.messageTypes);
    Ok(File(fd.name, ms, MakeServices(fd.services), MakeEnums(fd.enumTypes)))
  }

  /** `build_files`: one File per proto_file, in request order. */
  function BuildFiles(fds: seq<FileDescriptor>): Result<seq<File>, BuildError> {
    if fds == [] then Ok([])
    else
      var init :- BuildFiles(fds[..|fds| - 1]);
      var f :- BuildFile(fds[|fds| - 1]);
      Ok(init + [f])
  }

  lemma {:induction false} FilesStop(fds: seq<FileDescriptor>, i: nat)
    requires i <= |fds| && BuildFiles(fds[..i]).Err?
    ensures BuildFiles(fds) == BuildFiles(fds[..i])
  {
    if i < |fds| {
      var init := fds[..|fds| - 1];
      assert init[..i] == fds[..i];
      FilesStop(init, i);
    } else {
      assert fds[..i] == fds;
    }
  }

  lemma {:induction false} MessagesAt(mds: seq<MessageDescriptor>)
    ensures MakeMessages(mds).Ok? <==> forall i :: 0 <= i < |mds| ==> MakeMessage(mds[i], None).Ok?
    ensures MakeMessages(mds).Ok? ==>
      |MakeMessages(mds).value| == |mds|
      && forall i :: 0 <= i < |mds| ==> MakeMessage(mds[i], None) == Ok(MakeMessages(mds).value[i])
  {
    if mds != [] {
      MessagesAt(mds[..|mds| - 1]);
      assert forall i :: 0 <= i < |mds| - 1 ==> mds[..|mds| - 1][i] == mds[i];
    }
  }

  /** A built File mirrors its descriptor: same name, one message per
      top-level message type built without a prefix, one enum per enum type,
      and one service per service whose rpcs copy each method's name, input
      and output type verbatim. */
  lemma FileShape(fd: FileDescriptor)
    ensures BuildFile(fd).Ok? <==> forall i :: 0 <= i < |fd.messageTypes| ==> MakeMessage(fd.messageTypes[i], None).Ok?
    ensures BuildFile(fd).Ok? ==>
      var f := BuildFile(fd).value;
      f.name == fd.name
      && |f.messages| == |fd.messageTypes|
      && (forall i :: 0 <= i < |fd.messageTypes| ==> MakeMessage(fd.messageTypes[i], None) == Ok(f.messages[i]))
      && f.enums == MakeEnums(fd.enumTypes)
      && |f.services| == |fd.services|
      && forall i :: 0 <= i < |fd.services| ==>
        f.services[i].name == fd.services[i].name && f.services[i].description == ""
        && |f.services[i].rpcs| == |fd.services[i].methods|
        && forall j :: 0 <= j < |fd.services[i].methods| ==>
          var r, md := f.services[i].rpcs[j], fd.services[i].methods[j];
          r.name == md.name && r.inputType == md.inputType && r.outputType == md.outputType && r.description == ""
  {
    MessagesAt(fd.messageTypes);
  }

  /** `build_files` returns one File per proto_file in request order, or the
      first file's build error. */
  lemma {:induction false} FilesAt(fds: seq<FileDescriptor>)
    ensures BuildFiles(fds).Ok? <==> forall i :: 0 <= i < |fds| ==> BuildFile(fds[i]).Ok?
    ensures BuildFiles(fds).Ok? ==>
      |BuildFiles(fds).value| == |fds|
      && forall i :: 0 <= i < |fds| ==>
        BuildFile(fds[i]) == Ok(BuildFiles(fds).value[i]) && BuildFiles(fds).value[i].name == fds[i].name
  {
    if fds != [] {
      FilesAt(fds[..|fds| - 1]);
      assert forall i :: 0 <= i < |fds| - 1 ==> fds[..|fds| - 1][i] == fds[i];
    }
  }

  /** A built File carries no description anywhere. */
  lemma FileBlank(fd: FileDescriptor)
    requires BuildFile(fd).Ok?
    ensures EraseFile(BuildFile(fd).value) == BuildFile(fd).value
  {
    var f := BuildFile(fd).value;
    FileShape(fd);
    forall i | 0 <= i < |f.messages|
      ensures EraseMessage(f.messages[i]) == f.messages[i]
    {
      MessageBlank(fd.messageTypes[i], None);
    }
    forall i | 0 <= i < |f.enums|
      ensures EraseEnum(f.enums[i]) == f.enums[i]
    {
      EnumBlank(fd.enumTypes[i]);
    }
    forall i | 0 <= i < |f.services|
      ensures EraseService(f.services[i]) == f.services[i]
    {
      assert EraseService(f.services[i]).rpcs == f.services[i].rpcs;
    }
    var e := EraseFile(f);
    assert e.messages == f.messages;
    assert e.enums == f.enums;
    assert e.services == f.services;
  }

  // ---------------------------------------------------------------------
  // the message of tests/test_model_regression.py

  const MY_MESSAGE := MessageDescriptor(
    "MyMessage",
    [ FieldDescriptor("intval", 5, 1, "", None),
      FieldDescriptor("strval", 9, 1, "", None),
      FieldDescriptor("whatval", 11, LABEL_REPEATED, ".What", None) ],
    [], [], [])

  /** Its third field is repeated, non-primitive, typed ".What" and blank. */
  lemma RegressionMessage()
    ensures MakeMessage(MY_MESSAGE, None) == Ok(Message(
      "MyMessage",
      [ Field("intval", "int32", true, false, ""),
        Field("strval", "string", true, false, ""),
        Field("whatval", ".What", false, true, "") ],
      [], [], [], ""))
  {
    var fs := MY_MESSAGE.fields;
    var f0, f1, f2 := Field("intval", "int32", true, false, ""), Field("strval", "string", true, false, ""),
      Field("whatval", ".What", false, true, "");
    var blank: seq<Field> := [];
    var none: seq<seq<Field>> := [];
    assert seq(0, _ => blank) == none;
    var s1, s2 := [fs[0]], [fs[0], fs[1]];
    assert s1[..0] == [];
    assert PlaceFields(s1[..0], 0) == Ok(Placed([], []));
    assert MakeField(s1[0]) == Ok(f0);
    assert s1 != [];
    assert s1[..|s1| - 1] == s1[..0];
    assert s1[0].oneofIndex.None?;
    assert PlaceFields(s1, 0).Ok?;
    assert PlaceFields(s1, 0).value.direct == [f0];
    assert PlaceFields(s1, 0) == Ok(Placed([f0], []));
    assert s2[..1] == s1;
    assert MakeField(s2[1]) == Ok(f1);
    assert s2[..|s2| - 1] == s1;
    assert s2[1].oneofIndex.None?;
    assert PlaceFields(s2, 0).Ok?;
    assert PlaceFields(s2, 0).value.direct == [f0, f1];
    assert PlaceFields(s2, 0) == Ok(Placed([f0, f1], []));
    assert fs[..|fs| - 1] == s2;
    assert MakeField(fs[2]) == Ok(f2);
    assert fs[2].oneofIndex.None?;
    assert PlaceFields(fs, 0).Ok?;
    assert PlaceFields(fs, 0).value.direct == [f0, f1, f2];
    assert PlaceFields(fs, 0) == Ok(Placed([f0, f1, f2], []));
    assert MakeNested(MY_MESSAGE, 0, "MyMessage") == Ok([]);
    assert MakeGroups([], []) == [];
    assert MakeEnums([]) == [];
  }
}
