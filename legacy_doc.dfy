/** The older, flat document model of the repository's root model.py, as
    values: its `MessageField` has no `repeated` flag, its `Message` keeps
    every field in one list and has a `sub_messages` list that the builder
    never fills, and its `add_description` on a message follows field paths
    only. Its RPC, Service, ProtoEnum and ProtoEnumValue are the same as in
    auto_proto_doc/model.py, so their values and attachers are those of
    module Doc. */
module LegacyDoc {
  import opened Util
  import opened Descriptor
  import DataTypes
  import Doc
  import Addressing
  import Build

  /** `MessageField`. */
  datatype Field = Field(name: string, typ: string, isPrimitive: bool, description: string)

  /** `Message`. */
  datatype Message = Message(name: string, fields: seq<Field>, subMessages: seq<Message>, description: string)

  /** `File`. */
  datatype File = File(name: string, messages: seq<Message>, services: seq<Doc.Service>, enums: seq<Doc.Enum>)

  // ---------------------------------------------------------------------
  // add_description

  /** `MessageField.add_description`. */
  function FieldAddDescription(f: Field, d: string, path: seq<int>): Field {
    if |path| < 2 then f.(description := d) else f
  }

  /** `Message.add_description`: only field paths are followed, with Python
      list indexing into the flat field list. */
  function MessageAddDescription(m: Message, d: string, path: seq<int>): Result<Message, Doc.PathError> {
    if |path| < 2 then Ok(m.(description := d))
    else if path[0] == MESSAGE_FIELD then
      match PyIndex(path[1], |m.fields|)
      case None => Err(Doc.IndexError(path[1]))
      case Some(k) => Ok(m.(fields := m.fields[k := FieldAddDescription(m.fields[k], d, path[2..])]))
    else Ok(m)
  }

  /** `File.add_description`: a short path is ignored. */
  function FileAddDescription(f: File, d: string, path: seq<int>): Result<File, Doc.PathError> {
    if |path| < 2 then Ok(f)
    else
      var tag, index, rest := path[0], path[1], path[2..];
      if tag == FILE_MESSAGE_TYPE then
        match PyIndex(index, |f.messages|)
        case None => Err(Doc.IndexError(index))
        case Some(k) =>
          var m :- MessageAddDescription(f.messages[k], d, rest);
          Ok(f.(messages := f.messages[k := m]))
      else if tag == FILE_SERVICE then
        match PyIndex(index, |f.services|)
        case None => Err(Doc.IndexError(index))
        case Some(k) =>
          var s :- Doc.ServiceAddDescription(f.services[k], d, rest);
          Ok(f.(services := f.services[k := s]))
      else if tag == FILE_ENUM_TYPE then
        match PyIndex(index, |f.enums|)
        case None => Err(Doc.IndexError(index))
        case Some(k) =>
          var e :- Doc.EnumAddDescription(f.enums[k], d, rest);
          Ok(f.(enums := f.enums[k := e]))
      else Ok(f)
  }

  /** The path of a message's own description, of the description of its
      field `k`, and every other path: a short path names the message; a
      field path with an index inside the list changes that one field's
      description (when it names the field itself) and nothing else; a field
      index outside the list raises IndexError; every other tag, nested_type
      included, changes nothing. */
  lemma MessageRouting(m: Message, d: string, p: seq<int>)
    ensures |p| < 2 ==> MessageAddDescription(m, d, p) == Ok(Message(m.name, m.fields, m.subMessages, d))
    ensures |p| >= 2 && p[0] != MESSAGE_FIELD ==> MessageAddDescription(m, d, p) == Ok(m)
    ensures |p| >= 2 && p[0] == MESSAGE_FIELD ==>
      (MessageAddDescription(m, d, p).Ok? <==> -|m.fields| <= p[1] < |m.fields|)
    ensures |p| >= 2 && p[0] == MESSAGE_FIELD && MessageAddDescription(m, d, p).Err? ==>
      MessageAddDescription(m, d, p) == Err(Doc.IndexError(p[1]))
    ensures |p| >= 2 && p[0] == MESSAGE_FIELD && MessageAddDescription(m, d, p).Ok? ==>
      var m', k := MessageAddDescription(m, d, p).value, if p[1] < 0 then p[1] + |m.fields| else p[1];
      m'.name == m.name && m'.subMessages == m.subMessages && m'.description == m.description
      && |m'.fields| == |m.fields|
      && (forall j :: 0 <= j < |m.fields| && j != k ==> m'.fields[j] == m.fields[j])
      && m'.fields[k].name == m.fields[k].name && m'.fields[k].typ == m.fields[k].typ
      && m'.fields[k].isPrimitive == m.fields[k].isPrimitive
      && m'.fields[k].description == (if |p| < 4 then d else m.fields[k].description)
  {
  }

  /** The file-level routing: a short path and an unknown tag change
      nothing, and an index outside the addressed list raises IndexError; an
      index inside it (counted from the end when negative) hands the rest of
      the path to that one message, service or enum, the file fails exactly
      when that attacher fails and with its error, and on success only that
      element is replaced, by the attacher's result. */
  lemma FileRouting(f: File, d: string, p: seq<int>)
    ensures |p| < 2 ==> FileAddDescription(f, d, p) == Ok(f)
    ensures |p| >= 2 && p[0] != FILE_MESSAGE_TYPE && p[0] != FILE_SERVICE && p[0] != FILE_ENUM_TYPE ==>
      FileAddDescription(f, d, p) == Ok(f)
    ensures |p| >= 2 && p[0] == FILE_MESSAGE_TYPE && !(-|f.messages| <= p[1] < |f.messages|) ==>
      FileAddDescription(f, d, p) == Err(Doc.IndexError(p[1]))
    ensures |p| >= 2 && p[0] == FILE_SERVICE && !(-|f.services| <= p[1] < |f.services|) ==>
      FileAddDescription(f, d, p) == Err(Doc.IndexError(p[1]))
    ensures |p| >= 2 && p[0] == FILE_ENUM_TYPE && !(-|f.enums| <= p[1] < |f.enums|) ==>
      FileAddDescription(f, d, p) == Err(Doc.IndexError(p[1]))
    ensures |p| >= 2 && p[0] == FILE_MESSAGE_TYPE && -|f.messages| <= p[1] < |f.messages| ==>
      var k := if p[1] < 0 then p[1] + |f.messages| else p[1];
      var r, g := MessageAddDescription(f.messages[k], d, p[2..]), FileAddDescription(f, d, p);
      (g.Err? <==> r.Err?) && (r.Err? ==> g == Err(r.error))
      && (r.Ok? ==>
            g.value.name == f.name && g.value.messages == f.messages[k := r.value]
            && g.value.services == f.services && g.value.enums == f.enums)
    ensures |p| >= 2 && p[0] == FILE_SERVICE && -|f.services| <= p[1] < |f.services| ==>
      var k := if p[1] < 0 then p[1] + |f.services| else p[1];
      var r, g := Doc.ServiceAddDescription(f.services[k], d, p[2..]), FileAddDescription(f, d, p);
      (g.Err? <==> r.Err?) && (r.Err? ==> g == Err(r.error))
      && (r.Ok? ==>
            g.value.name == f.name && g.value.services == f.services[k := r.value]
            && g.value.messages == f.messages && g.value.enums == f.enums)
    ensures |p| >= 2 && p[0] == FILE_ENUM_TYPE && -|f.enums| <= p[1] < |f.enums| ==>
      var k := if p[1] < 0 then p[1] + |f.enums| else p[1];
      var r, g := Doc.EnumAddDescription(f.enums[k], d, p[2..]), FileAddDescription(f, d, p);
      (g.Err? <==> r.Err?) && (r.Err? ==> g == Err(r.error))
      && (r.Ok? ==>
            g.value.name == f.name && g.value.enums == f.enums[k := r.value]
            && g.value.messages == f.messages && g.value.services == f.services)
  {
  }

  // ---------------------------------------------------------------------
  // Only descriptions change.

  function EraseField(f: Field): Field { f.(description := "") }

  function EraseMessage(m: Message): Message {
    Message(m.name, seq(|m.fields|, i requires 0 <= i < |m.fields| => EraseField(m.fields[i])), m.subMessages, "")
  }

  function EraseFile(f: File): File {
    File(
      f.name,
      seq(|f.messages|, i requires 0 <= i < |f.messages| => EraseMessage(f.messages[i])),
      seq(|f.services|, i requires 0 <= i < |f.services| => Addressing.EraseService(f.services[i])),
      seq(|f.enums|, i requires 0 <= i < |f.enums| => Addressing.EraseEnum(f.enums[i])))
  }

  lemma MessageShape(m: Message, d: string, p: seq<int>)
    requires MessageAddDescription(m, d, p).Ok?
    ensures EraseMessage(MessageAddDescription(m, d, p).value) == EraseMessage(m)
  {
    var m' := MessageAddDescription(m, d, p).value;
    if |p| >= 2 && p[0] == MESSAGE_FIELD {
      var k := PyIndex(p[1], |m.fields|).value;
      assert forall j :: 0 <= j < |m.fields| ==> EraseField(m'.fields[j]) == EraseField(m.fields[j]);
    }
  }

  /** `add_description` changes descriptions only: names, types, the lists
      and their lengths, and the (empty) sub_messages stay as they were. */
  lemma FileShape(f: File, d: string, p: seq<int>)
    requires FileAddDescription(f, d, p).Ok?
    ensures EraseFile(FileAddDescription(f, d, p).value) == EraseFile(f)
  {
    var f' := FileAddDescription(f, d, p).value;
    if |p| >= 2 {
      var tag, rest := p[0], p[2..];
      if tag == FILE_MESSAGE_TYPE {
        var k := PyIndex(p[1], |f.messages|).value;
        MessageShape(f.messages[k], d, rest);
        assert forall j :: 0 <= j < |f.messages| ==> EraseMessage(f'.messages[j]) == EraseMessage(f.messages[j]);
      } else if tag == FILE_SERVICE {
        var k := PyIndex(p[1], |f.services|).value;
        Addressing.ServiceShape(f.services[k], d, rest);
        assert forall j :: 0 <= j < |f.services| ==>
          Addressing.EraseService(f'.services[j]) == Addressing.EraseService(f.services[j]);
      } else if tag == FILE_ENUM_TYPE {
        var k := PyIndex(p[1], |f.enums|).value;
        Addressing.EnumShape(f.enums[k], d, rest);
        assert forall j :: 0 <= j < |f.enums| ==> Addressing.EraseEnum(f'.enums[j]) == Addressing.EraseEnum(f.enums[j]);
      }
    }
  }

  /** Applying two descriptions along the same path leaves the tree as if
      only the second had been applied. */
  lemma FileOverwrite(f: File, d1: string, d2: string, p: seq<int>)
    requires FileAddDescription(f, d1, p).Ok?
    ensures FileAddDescription(FileAddDescription(f, d1, p).value, d2, p) == FileAddDescription(f, d2, p)
  {
    if |p| >= 2 {
      var tag, rest := p[0], p[2..];
      if tag == FILE_MESSAGE_TYPE {
        var k := PyIndex(p[1], |f.messages|).value;
        var m1 := MessageAddDescription(f.messages[k], d1, rest).value;
        var m2 := MessageAddDescription(f.messages[k], d2, rest).value;
        if |rest| >= 2 && rest[0] == MESSAGE_FIELD {
          var i := PyIndex(rest[1], |f.messages[k].fields|).value;
          assert m1.fields[i := FieldAddDescription(m1.fields[i], d2, rest[2..])] == m2.fields;
        }
        assert MessageAddDescription(m1, d2, rest) == Ok(m2);
        assert f.messages[k := m1][k := m2] == f.messages[k := m2];
      } else if tag == FILE_SERVICE {
        var k := PyIndex(p[1], |f.services|).value;
        Addressing.ServiceOverwrite(f.services[k], d1, d2, rest);
        var s1 := Doc.ServiceAddDescription(f.services[k], d1, rest).value;
        var s2 := Doc.ServiceAddDescription(f.services[k], d2, rest).value;
        assert f.services[k := s1][k := s2] == f.services[k := s2];
      } else if tag == FILE_ENUM_TYPE {
        var k := PyIndex(p[1], |f.enums|).value;
        Addressing.EnumOverwrite(f.enums[k], d1, d2, rest);
        var e1 := Doc.EnumAddDescription(f.enums[k], d1, rest).value;
        var e2 := Doc.EnumAddDescription(f.enums[k], d2, rest).value;
        assert f.enums[k := e1][k := e2] == f.enums[k := e2];
      }
    }
  }

  /** Every Service and every enum value of the file has an empty
      description. */
  predicate FileQuiet(f: File) {
    (forall i :: 0 <= i < |f.services| ==> f.services[i].description == "")
    && forall i :: 0 <= i < |f.enums| ==> Addressing.EnumQuiet(f.enums[i])
  }

  /** No path ever gives a Service or an enum value a description: a Service
      ignores a short path and an enum value is always handed a long one. */
  lemma FileStaysQuiet(f: File, d: string, p: seq<int>)
    requires FileQuiet(f) && FileAddDescription(f, d, p).Ok?
    ensures FileQuiet(FileAddDescription(f, d, p).value)
  {
    var f' := FileAddDescription(f, d, p).value;
    if |p| >= 2 && p[0] == FILE_SERVICE {
      var k := PyIndex(p[1], |f.services|).value;
      assert f'.services == f.services[k := Doc.ServiceAddDescription(f.services[k], d, p[2..]).value];
    } else if |p| >= 2 && p[0] == FILE_ENUM_TYPE {
      var k := PyIndex(p[1], |f.enums|).value;
      assert f'.enums == f.enums[k := Doc.EnumAddDescription(f.enums[k], d, p[2..]).value];
    }
  }

  // ---------------------------------------------------------------------
  // build_files

  /** The `MessageField` built for one field declaration: labels and oneof
      membership play no part. */
  function MakeField(fd: FieldDescriptor): Result<Field, Build.BuildError> {
    match DataTypes.FromCode(fd.typeCode)
    case None => Err(Build.UnknownTypeCode(fd.typeCode))
    case Some(t) =>
      match DataTypes.DisplayString(t)
      case NotInTable => Err(Build.NoDisplayName(fd.typeCode))
      case Shown(s) => Ok(Field(fd.name, s, true, ""))
      case UseMessageTypeName => Ok(Field(fd.name, fd.typeName, false, ""))
  }

  /** The field classification is the same partial table as the one of
      auto_proto_doc/model.py: the seven named scalar codes get their .proto
      keyword and are primitive, MESSAGE takes the type name and is not
      primitive, DOUBLE, BYTES, ENUM and GROUP have no entry, and codes the
      enum lacks fail as well; the result agrees with the other builder's
      field except for its `repeated` flag. */
  lemma FieldTable(fd: FieldDescriptor)
    ensures MakeField(fd).Ok? <==> DataTypes.IsNamedCode(fd.typeCode) || fd.typeCode == 11
    ensures MakeField(fd).Ok? ==>
      var f := MakeField(fd).value;
      f.name == fd.name && f.description == ""
      && f.isPrimitive == DataTypes.IsNamedCode(fd.typeCode)
      && f.typ == (if fd.typeCode == 11 then fd.typeName else DataTypes.ProtoKeyword(fd.typeCode))
    ensures MakeField(fd) == Err(Build.NoDisplayName(fd.typeCode)) <==>
      fd.typeCode == 1 || fd.typeCode == 10 || fd.typeCode == 12 || fd.typeCode == 14
    ensures MakeField(fd) == Err(Build.UnknownTypeCode(fd.typeCode)) <==>
      !(1 <= fd.typeCode <= 14) || fd.typeCode == 4 || fd.typeCode == 13
    ensures MakeField(fd).Err? ==> Build.MakeField(fd) == Err(MakeField(fd).error)
    ensures MakeField(fd).Ok? ==>
      var g := Build.MakeField(fd).value;
      Build.MakeField(fd).Ok? && MakeField(fd).value == Field(g.name, g.typ, g.isPrimitive, g.description)
  {
    DataTypes.DisplayStringTable(fd.typeCode);
  }

  function MakeFields(fds: seq<FieldDescriptor>): Result<seq<Field>, Build.BuildError> {
    if fds == [] then Ok([])
    else
      var init :- MakeFields(fds[..|fds| - 1]);
      var f :- MakeField(fds[|fds| - 1]);
      Ok(init + [f])
  }

  /** The `Message` built for one top-level message declaration: its fields
      in one flat list, no sub_messages. */
  function MakeMessage(md: MessageDescriptor): Result<Message, Build.BuildError> {
    var fs :- MakeFields(md.fields);
    Ok(Message(md.name, fs, [], ""))
  }

  function MakeMessages(mds: seq<MessageDescriptor>): Result<seq<Message>, Build.BuildError> {
    if mds == [] then Ok([])
    else
      var init :- MakeMessages(mds[..|mds| - 1]);
      var m :- MakeMessage(mds[|mds| - 1]);
      Ok(init + [m])
  }

  /** One iteration of `build_files`: messages, then services, then enums. */
  function BuildFile(fd: FileDescriptor): Result<File, Build.BuildError> {
    var ms :- MakeMessages(fd.messageTypes);
    Ok(File(fd.name, ms, Build.MakeServices(fd.services), Build.MakeEnums(fd.enumTypes)))
  }

  /** `build_files`. */
  function BuildFiles(fds: seq<FileDescriptor>): Result<seq<File>, Build.BuildError> {
    if fds == [] then Ok([])
    else
      var init :- BuildFiles(fds[..|fds| - 1]);
      var f :- BuildFile(fds[|fds| - 1]);
      Ok(init + [f])
  }

  /** Once a prefix of the field list fails, the whole list fails with the
      same error. */
  lemma {:induction false} FieldsStop(fds: seq<FieldDescriptor>, i: nat)
    requires i <= |fds| && MakeFields(fds[..i]).Err?
    ensures MakeFields(fds) == MakeFields(fds[..i])
  {
    if i < |fds| {
      var init := fds[..|fds| - 1];
      assert init[..i] == fds[..i];
      FieldsStop(init, i);
    } else {
      assert fds[..i] == fds;
    }
  }

  lemma {:induction false} MessagesStop(mds: seq<MessageDescriptor>, i: nat)
    requires i <= |mds| && MakeMessages(mds[..i]).Err?
    ensures MakeMessages(mds) == MakeMessages(mds[..i])
  {
    if i < |mds| {
      var init := mds[..|mds| - 1];
      assert init[..i] == mds[..i];
      MessagesStop(init, i);
    } else {
      assert mds[..i] == mds;
    }
  }

  lemma {:induction false} FilesStop(fds: seq<FileDescriptor>, i: nat)
    requires i <= |fds| && BuildFiles(fds[..i]).Err?
    ensures BuildFiles(fds) == BuildFiles(fds[..i])
  {
    if i < |fds| {
      var init := fds[..|fds| - 1];
      assert init[..i] == fds[..i];
      FilesStop(init, i);
    } else {
      assert fds[..i] == fds;
    }
  }

  /** The field list is built entry by entry, in declaration order. */
  lemma {:induction false} FieldsAt(fds: seq<FieldDescriptor>)
    ensures MakeFields(fds).Ok? <==> forall i :: 0 <= i < |fds| ==> MakeField(fds[i]).Ok?
    ensures MakeFields(fds).Ok? ==>
      |MakeFields(fds).value| == |fds|
      && forall i :: 0 <= i < |fds| ==> MakeField(fds[i]) == Ok(MakeFields(fds).value[i])
  {
    if fds != [] {
      FieldsAt(fds[..|fds| - 1]);
      assert forall i :: 0 <= i < |fds| - 1 ==> fds[..|fds| - 1][i] == fds[i];
    }
  }

  /** Every built message has all of its fields, labels and oneof
      membership notwithstanding, in one flat list in declaration order, and
      no sub_messages. */
  lemma MessageFlat(md: MessageDescriptor)
    ensures MakeMessage(md).Ok? <==> forall i :: 0 <= i < |md.fields| ==> MakeField(md.fields[i]).Ok?
    ensures MakeMessage(md).Ok? ==>
      var m := MakeMessage(md).value;
      m.name == md.name && m.subMessages == [] && m.description == ""
      && |m.fields| == |md.fields|
      && forall i :: 0 <= i < |md.fields| ==> MakeField(md.fields[i]) == Ok(m.fields[i])
  {
    FieldsAt(md.fields);
  }

  /** A field declaration without label and oneof membership. */
  function Plain(fd: FieldDescriptor): FieldDescriptor {
    fd.(labelCode := 0, oneofIndex := None)
  }

  /** The built message depends neither on the fields' labels and oneof
      indices nor on the nested declarations. */
  lemma {:induction false} MessageIgnores(md: MessageDescriptor)
    ensures MakeMessage(md) == MakeMessage(MessageDescriptor(
      md.name, seq(|md.fields|, i requires 0 <= i < |md.fields| => Plain(md.fields[i])), [], [], []))
  {
    var plain := seq(|md.fields|, i requires 0 <= i < |md.fields| => Plain(md.fields[i]));
    FieldsAt(md.fields);
    FieldsAt(plain);
    assert forall i :: 0 <= i < |md.fields| ==> MakeField(plain[i]) == MakeField(md.fields[i]);
    if MakeFields(md.fields).Ok? {
      assert MakeFields(plain).value == MakeFields(md.fields).value;
    } else {
      PlainFieldsFail(md.fields, plain);
    }
  }

  lemma {:induction false} PlainFieldsFail(fds: seq<FieldDescriptor>, plain: seq<FieldDescriptor>)
    requires |plain| == |fds| && forall i :: 0 <= i < |fds| ==> plain[i] == Plain(fds[i])
    ensures MakeFields(plain) == MakeFields(fds)
  {
    if fds != [] {
      var n := |fds| - 1;
      PlainFieldsFail(fds[..n], plain[..n]);
      assert MakeField(plain[n]) == MakeField(fds[n]);
    }
  }

  lemma {:induction false} MessagesAt(mds: seq<MessageDescriptor>)
    ensures MakeMessages(mds).Ok? <==> forall i :: 0 <= i < |mds| ==> MakeMessage(mds[i]).Ok?
    ensures MakeMessages(mds).Ok? ==>
      |MakeMessages(mds).value| == |mds|
      && forall i :: 0 <= i < |mds| ==> MakeMessage(mds[i]) == Ok(MakeMessages(mds).value[i])
  {
    if mds != [] {
      MessagesAt(mds[..|mds| - 1]);
      assert forall i :: 0 <= i < |mds| - 1 ==> mds[..|mds| - 1][i] == mds[i];
    }
  }

  /** One File per proto_file: its top-level messages, services (with their
      rpcs) and enums (with their values) mirror the declarations in order,
      and nothing has a description yet. */
  lemma FileMirrors(fd: FileDescriptor)
    ensures BuildFile(fd).Ok? <==> forall i :: 0 <= i < |fd.messageTypes| ==> MakeMessage(fd.messageTypes[i]).Ok?
    ensures BuildFile(fd).Ok? ==>
      var f := BuildFile(fd).value;
      f.name == fd.name
      && |f.messages| == |fd.messageTypes|
      && (forall i :: 0 <= i < |fd.messageTypes| ==> MakeMessage(fd.messageTypes[i]) == Ok(f.messages[i]))
      && |f.enums| == |fd.enumTypes|
      && (forall i :: 0 <= i < |fd.enumTypes| ==>
        f.enums[i].name == fd.enumTypes[i].name && f.enums[i].description == ""
        && |f.enums[i].values| == |fd.enumTypes[i].values|
        && forall j :: 0 <= j < |fd.enumTypes[i].values| ==>
          f.enums[i].values[j] == Doc.EnumValue(fd.enumTypes[i].values[j].name, ""))
      && |f.services| == |fd.services|
      && forall i :: 0 <= i < |fd.services| ==>
        f.services[i].name == fd.services[i].name && f.services[i].description == ""
        && |f.services[i].rpcs| == |fd.services[i].methods|
        && forall j :: 0 <= j < |fd.services[i].methods| ==>
          var r, md := f.services[i].rpcs[j], fd.services[i].methods[j];
          r.name == md.name && r.inputType == md.inputType && r.outputType == md.outputType && r.description == ""
  {
    MessagesAt(fd.messageTypes);
  }

  lemma {:induction false} FilesAt(fds: seq<FileDescriptor>)
    ensures BuildFiles(fds).Ok? <==> forall i :: 0 <= i < |fds| ==> BuildFile(fds[i]).Ok?
    ensures BuildFiles(fds).Ok? ==>
      |BuildFiles(fds).value| == |fds|
      && forall i :: 0 <= i < |fds| ==>
        BuildFile(fds[i]) == Ok(BuildFiles(fds).value[i]) && BuildFiles(fds).value[i].name == fds[i].name
  {
    if fds != [] {
      FilesAt(fds[..|fds| - 1]);
      assert forall i :: 0 <= i < |fds| - 1 ==> fds[..|fds| - 1][i] == fds[i];
    }
  }

  /** A freshly built file is quiet, so by FileStaysQuiet no sequence of
      `add_description` calls ever describes a Service or an enum value. */
  lemma BuiltQuiet(fd: FileDescriptor)
    requires BuildFile(fd).Ok?
    ensures FileQuiet(BuildFile(fd).value)
  {
    FileMirrors(fd);
  }
}
