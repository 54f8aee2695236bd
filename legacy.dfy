/** The mutable tree of the root model.py and its `build_files`. The legacy
    MessageField, Message and File are classes of their own; RPC, Service,
    ProtoEnum and ProtoEnumValue are the classes of module Model, whose code
    is the same in both files. Each `AddDescription` is proved to change the
    view exactly as module LegacyDoc says, and `BuildFiles` to build exactly
    what `LegacyDoc.BuildFiles` describes. */
module Legacy {
  import opened Util
  import opened Descriptor
  import DataTypes
  import Doc
  import Build
  import Model
  import LegacyDoc

  ghost function FieldViews(fs: seq<MessageField>): (r: seq<LegacyDoc.Field>)
    reads fs
    ensures |r| == |fs|
  {
    seq(|fs|, i requires 0 <= i < |fs| reads fs => fs[i].View())
  }

  class MessageField {
    const name: string
    const typ: string
    const isPrimitive: bool
    var description: string

    function View(): LegacyDoc.Field
      reads this
    {
      LegacyDoc.Field(name, typ, isPrimitive, description)
    }

    /** `MessageField(name, typ, is_primitive)`, blank. */
    constructor (name: string, typ: string, isPrimitive: bool)
      ensures View() == LegacyDoc.Field(name, typ, isPrimitive, "")
    {
      this.name, this.typ, this.isPrimitive := name, typ, isPrimitive;
      description := "";
    }

    /** `MessageField.add_description`. */
    method AddDescription(d: string, path: seq<int>)
      modifies this
      ensures View() == LegacyDoc.FieldAddDescription(old(View()), d, path)
    {
      if |path| < 2 {
        description := d;
      }
    }
  }

  class Message {
    const name: string
    const fields: seq<MessageField>
    const subMessages: seq<Message>
    var description: string
    ghost const Repr: set<object>

    /** Nothing in the legacy code adds to `sub_messages`, so it stays the
        empty list the builder gives it. */
    ghost predicate Valid() {
      Repr == {this} + (set i | 0 <= i < |fields| :: fields[i]) && NoDup(fields) && subMessages == []
    }

    ghost function View(): LegacyDoc.Message
      requires Valid()
      reads Repr
    {
      LegacyDoc.Message(name, FieldViews(fields), [], description)
    }

    /** `Message(name, fields, [])`. */
    constructor (name: string, fields: seq<MessageField>)
      requires NoDup(fields)
      ensures Valid() && Repr == {this} + (set i | 0 <= i < |fields| :: fields[i])
      ensures View() == LegacyDoc.Message(name, FieldViews(fields), [], "")
    {
      this.name, this.fields, this.subMessages := name, fields, [];
      description := "";
      Repr := {this} + (set i | 0 <= i < |fields| :: fields[i]);
    }

    /** `Message.add_description`: the result is the exception raised, if
        any, and then nothing has changed. */
    method AddDescription(d: string, path: seq<int>) returns (raised: Option<Doc.PathError>)
      requires Valid()
      modifies Repr
      ensures match LegacyDoc.MessageAddDescription(old(View()), d, path)
        case Ok(m) => raised.None? && View() == m
        case Err(e) => raised == Some(e) && unchanged(Repr)
    {
      if |path| < 2 {
        description := d;
        return None;
      }
      if path[0] == MESSAGE_FIELD {
        var k := PyIndex(path[1], |fields|);
        if k.None? {
          return Some(Doc.IndexError(path[1]));
        }
        var f := fields[k.value];
        ghost var before := old(View());
        f.AddDescription(d, path[2..]);
        assert forall i :: 0 <= i < |fields| && i != k.value ==> fields[i].View() == old(fields[i].View());
        assert View().fields == before.fields[k.value := f.View()];
      }
      return None;
    }
  }

  ghost function FilePartsOf(messages: seq<Message>, services: seq<Model.Service>, enums: seq<Model.ProtoEnum>)
    : (r: seq<set<object>>)
    ensures |r| == |messages| + |services| + |enums|
    ensures forall i :: 0 <= i < |messages| ==> r[i] == messages[i].Repr
    ensures forall i :: 0 <= i < |services| ==> r[|messages| + i] == services[i].Repr
    ensures forall i :: 0 <= i < |enums| ==> r[|messages| + |services| + i] == enums[i].Repr
  {
    seq(|messages|, i requires 0 <= i < |messages| => messages[i].Repr)
    + seq(|services|, i requires 0 <= i < |services| => services[i].Repr)
    + seq(|enums|, i requires 0 <= i < |enums| => enums[i].Repr)
  }

  class File {
    const name: string
    const messages: seq<Message>
    const services: seq<Model.Service>
    const enums: seq<Model.ProtoEnum>
    ghost const Repr: set<object>

    ghost function Parts(): seq<set<object>> {
      FilePartsOf(messages, services, enums)
    }

    ghost predicate Valid() {
      this in Repr
      && (forall i :: 0 <= i < |messages| ==> messages[i].Valid())
      && (forall i :: 0 <= i < |services| ==> services[i].Valid())
      && (forall i :: 0 <= i < |enums| ==> enums[i].Valid())
      && (forall j :: 0 <= j < |Parts()| ==> Parts()[j] <= Repr && this !in Parts()[j])
      && Disjoint(Parts())
    }

    ghost function View(): LegacyDoc.File
      requires Valid()
      reads Repr
    {
      LegacyDoc.File(
        name,
        seq(|messages|, i requires 0 <= i < |messages| reads Repr => messages[i].View()),
        seq(|services|, i requires 0 <= i < |services| reads Repr => services[i].View()),
        seq(|enums|, i requires 0 <= i < |enums| reads Repr => enums[i].View()))
    }

    constructor (name: string, messages: seq<Message>, services: seq<Model.Service>, enums: seq<Model.ProtoEnum>)
      requires forall i :: 0 <= i < |messages| ==> messages[i].Valid()
      requires forall i :: 0 <= i < |services| ==> services[i].Valid()
      requires forall i :: 0 <= i < |enums| ==> enums[i].Valid()
      requires Disjoint(FilePartsOf(messages, services, enums))
      ensures Valid() && Repr == {this} + Model.Union(FilePartsOf(messages, services, enums))
      ensures View() == LegacyDoc.File(name, MessagesView(messages), Model.ServicesView(services), Model.EnumsView(enums))
    {
      this.name, this.messages, this.services, this.enums := name, messages, services, enums;
      Repr := {this} + Model.Union(FilePartsOf(messages, services, enums));
      new;
      assert this !in Model.Union(Parts());
      assert forall j :: 0 <= j < |Parts()| ==> Parts()[j] <= Repr && this !in Parts()[j];
      assert Valid();
      assert View().messages == MessagesView(messages);
      assert View().services == Model.ServicesView(services);
      assert View().enums == Model.EnumsView(enums);
    }

    /** Changing only the footprint of child `j` leaves every other child's
        view as it was. */
    twostate lemma OthersUnchanged(j: nat)
      requires Valid() && j < |Parts()|
      requires unchanged(Repr - Parts()[j])
      ensures forall i :: 0 <= i < |messages| && i != j ==> messages[i].View() == old(messages[i].View())
      ensures forall i :: 0 <= i < |services| && |messages| + i != j ==> services[i].View() == old(services[i].View())
      ensures forall i :: 0 <= i < |enums| && |messages| + |services| + i != j ==> enums[i].View() == old(enums[i].View())
    {
      var ps := Parts();
      forall i | 0 <= i < |messages| && i != j
        ensures messages[i].View() == old(messages[i].View())
      {
        assert ps[i] !! ps[j];
      }
      forall i | 0 <= i < |services| && |messages| + i != j
        ensures services[i].View() == old(services[i].View())
      {
        assert ps[|messages| + i] !! ps[j];
      }
      forall i | 0 <= i < |enums| && |messages| + |services| + i != j
        ensures enums[i].View() == old(enums[i].View())
      {
        assert ps[|messages| + |services| + i] !! ps[j];
      }
    }

    /** `File.add_description`: the result is the exception raised, if any,
        and then nothing has changed. */
    method AddDescription(d: string, path: seq<int>) returns (raised: Option<Doc.PathError>)
      requires Valid()
      modifies Repr
      ensures match LegacyDoc.FileAddDescription(old(View()), d, path)
        case Ok(f) => raised.None? && View() == f
        case Err(e) => raised == Some(e) && unchanged(Repr)
    {
      raised := None;
      if |path| < 2 {
        return;
      }
      var tag, index, rest := path[0], path[1], path[2..];
      if tag == FILE_MESSAGE_TYPE {
        var k := PyIndex(index, |messages|);
        if k.None? {
          return Some(Doc.IndexError(index));
        }
        raised := DescribeMessage(k.value, d, rest);
      } else if tag == FILE_SERVICE {
        var k := PyIndex(index, |services|);
        if k.None? {
          return Some(Doc.IndexError(index));
        }
        raised := DescribeService(k.value, d, rest);
      } else if tag == FILE_ENUM_TYPE {
        var k := PyIndex(index, |enums|);
        if k.None? {
          return Some(Doc.IndexError(index));
        }
        raised := DescribeEnum(k.value, d, rest);
      }
    }

    /** `self.messages[k].add_description(d, rest)`. */
    method DescribeMessage(k: nat, d: string, rest: seq<int>) returns (raised: Option<Doc.PathError>)
      requires Valid() && k < |messages|
      modifies Repr
      ensures |old(View()).messages| == |messages|
      ensures match LegacyDoc.MessageAddDescription(old(View()).messages[k], d, rest)
        case Ok(m) => raised.None? && View() == old(View()).(messages := old(View()).messages[k := m])
        case Err(e) => raised == Some(e) && unchanged(Repr)
    {
      ghost var v0 := View();
      var m := messages[k];
      assert Parts()[k] == m.Repr;
      raised := m.AddDescription(d, rest);
      OthersUnchanged(k);
      if raised.None? {
        assert View().messages == v0.messages[k := m.View()];
        assert View().services == v0.services;
        assert View().enums == v0.enums;
      }
    }

    /** `self.services[k].add_description(d, rest)`. */
    method DescribeService(k: nat, d: string, rest: seq<int>) returns (raised: Option<Doc.PathError>)
      requires Valid() && k < |services|
      modifies Repr
      ensures |old(View()).services| == |services|
      ensures match Doc.ServiceAddDescription(old(View()).services[k], d, rest)
        case Ok(sv) => raised.None? && View() == old(View()).(services := old(View()).services[k := sv])
        case Err(e) => raised == Some(e) && unchanged(Repr)
    {
      ghost var v0 := View();
      var sv := services[k];
      var j := |messages| + k;
      assert Parts()[j] == sv.Repr;
      raised := sv.AddDescription(d, rest);
      OthersUnchanged(j);
      if raised.None? {
        assert View().services == v0.services[k := sv.View()];
        assert View().messages == v0.messages;
        assert View().enums == v0.enums;
      }
    }

    /** `self.enums[k].add_description(d, rest)`. */
    method DescribeEnum(k: nat, d: string, rest: seq<int>) returns (raised: Option<Doc.PathError>)
      requires Valid() && k < |enums|
      modifies Repr
      ensures |old(View()).enums| == |enums|
      ensures match Doc.EnumAddDescription(old(View()).enums[k], d, rest)
        case Ok(e) => raised.None? && View() == old(View()).(enums := old(View()).enums[k := e])
        case Err(e) => raised == Some(e) && unchanged(Repr)
    {
      ghost var v0 := View();
      var e := enums[k];
      var j := |messages| + |services| + k;
      assert Parts()[j] == e.Repr;
      raised := e.AddDescription(d, rest);
      OthersUnchanged(j);
      if raised.None? {
        assert View().enums == v0.enums[k := e.View()];
        assert View().messages == v0.messages;
        assert View().services == v0.services;
      }
    }
  }

  // ---------------------------------------------------------------------
  // build_files

  ghost function MessagesView(ms: seq<Message>): (r: seq<LegacyDoc.Message>)
    requires forall i :: 0 <= i < |ms| ==> ms[i].Valid()
    reads set i, o | 0 <= i < |ms| && o in ms[i].Repr :: o
    ensures |r| == |ms|
  {
    seq(|ms|, i requires 0 <= i < |ms| && ms[i].Valid() reads set j, o | 0 <= j < |ms| && o in ms[j].Repr :: o => ms[i].View())
  }

  ghost function MessageParts(ms: seq<Message>): (r: seq<set<object>>)
    ensures |r| == |ms| && forall i :: 0 <= i < |ms| ==> r[i] == ms[i].Repr
  {
    seq(|ms|, i requires 0 <= i < |ms| => ms[i].Repr)
  }

  ghost function FilesView(fs: seq<File>): (r: seq<LegacyDoc.File>)
    requires forall i :: 0 <= i < |fs| ==> fs[i].Valid()
    reads set i, o | 0 <= i < |fs| && o in fs[i].Repr :: o
    ensures |r| == |fs|
  {
    seq(|fs|, i requires 0 <= i < |fs| && fs[i].Valid() reads set j, o | 0 <= j < |fs| && o in fs[j].Repr :: o => fs[i].View())
  }

  ghost function FileParts(fs: seq<File>): (r: seq<set<object>>)
    ensures |r| == |fs| && forall i :: 0 <= i < |fs| ==> r[i] == fs[i].Repr
  {
    seq(|fs|, i requires 0 <= i < |fs| => fs[i].Repr)
  }

  /** The `MessageField` of one field declaration: `display_string` of its
      type, or its type name when that signals UseMessageTypeName. */
  method MakeField(fd: FieldDescriptor) returns (r: Result<MessageField, Build.BuildError>)
    ensures match LegacyDoc.MakeField(fd)
      case Ok(v) => r.Ok? && fresh(r.value) && r.value.View() == v
      case Err(e) => r == Err(e)
  {
    var t := DataTypes.FromCode(fd.typeCode);
    if t.None? {
      return Err(Build.UnknownTypeCode(fd.typeCode));
    }
    var shown := DataTypes.DisplayString(t.value);
    if shown.NotInTable? {
      return Err(Build.NoDisplayName(fd.typeCode));
    }
    var ts, isPrim := if shown.Shown? then shown.name else fd.typeName, shown.Shown?;
    var mf := new MessageField(fd.name, ts, isPrim);
    return Ok(mf);
  }

  /** The inner loop over `msg.field`: a Message holding one MessageField per
      field, in order. */
  method MakeMessage(md: MessageDescriptor) returns (r: Result<Message, Build.BuildError>)
    ensures match LegacyDoc.MakeMessage(md)
      case Ok(v) => r.Ok? && r.value.Valid() && fresh(r.value.Repr) && r.value.View() == v
      case Err(e) => r == Err(e)
  {
    var fs: seq<MessageField> := [];
    assert md.fields[..0] == [];
    for i := 0 to |md.fields|
      invariant |fs| == i && NoDup(fs)
      invariant forall j :: 0 <= j < i ==> fresh(fs[j])
      invariant LegacyDoc.MakeFields(md.fields[..i]) == Ok(FieldViews(fs))
    {
      assert md.fields[..i + 1][..i] == md.fields[..i];
      var f := MakeField(md.fields[i]);
      if f.Err? {
        LegacyDoc.FieldsStop(md.fields, i + 1);
        return Err(f.error);
      }
      assert FieldViews(fs + [f.value]) == FieldViews(fs) + [f.value.View()];
      fs := fs + [f.value];
    }
    assert md.fields[..|md.fields|] == md.fields;
    var m := new Message(md.name, fs);
    return Ok(m);
  }

  lemma MessagesViewAppend(ms: seq<Message>, m: Message)
    requires forall i :: 0 <= i < |ms| ==> ms[i].Valid()
    requires m.Valid()
    ensures MessagesView(ms + [m]) == MessagesView(ms) + [m.View()]
  {
    var ms' := ms + [m];
    assert forall i :: 0 <= i < |ms| ==> ms'[i] == ms[i];
  }

  /** The loop over `proto_file.message_type`. */
  method MakeMessages(mds: seq<MessageDescriptor>)
    returns (r: Result<seq<Message>, Build.BuildError>, ghost fp: set<object>)
    ensures fresh(fp)
    ensures match LegacyDoc.MakeMessages(mds)
      case Ok(v) =>
        r.Ok? && (forall j :: 0 <= j < |r.value| ==> r.value[j].Valid())
        && Model.Within(MessageParts(r.value), fp) && Disjoint(MessageParts(r.value)) && MessagesView(r.value) == v
      case Err(e) => r == Err(e)
  {
    var ms: seq<Message> := [];
    fp := {};
    assert mds[..0] == [];
    for i := 0 to |mds|
      invariant |ms| == i && fresh(fp)
      invariant forall j :: 0 <= j < i ==> ms[j].Valid() && ms[j].Repr <= fp
      invariant Disjoint(MessageParts(ms))
      invariant LegacyDoc.MakeMessages(mds[..i]) == Ok(MessagesView(ms))
    {
      ghost var mv := MessagesView(ms);
      assert mds[..i + 1][..i] == mds[..i];
      var m := MakeMessage(mds[i]);
      if m.Err? {
        LegacyDoc.MessagesStop(mds, i + 1);
        return Err(m.error), fp;
      }
      assert MessagesView(ms) == mv;
      assert fp !! m.value.Repr;
      DisjointAppend(MessageParts(ms), m.value.Repr);
      assert MessageParts(ms + [m.value]) == MessageParts(ms) + [m.value.Repr];
      MessagesViewAppend(ms, m.value);
      ms := ms + [m.value];
      fp := fp + m.value.Repr;
    }
    assert mds[..|mds|] == mds;
    return Ok(ms), fp;
  }

  /** Wraps already built, pairwise disjoint parts into a new File. */
  method AssembleFile(name: string, ms: seq<Message>, ss: seq<Model.Service>, es: seq<Model.ProtoEnum>,
                      ghost mfp: set<object>, ghost sfp: set<object>, ghost efp: set<object>)
    returns (f: File)
    requires forall i :: 0 <= i < |ms| ==> ms[i].Valid()
    requires forall i :: 0 <= i < |ss| ==> ss[i].Valid()
    requires forall i :: 0 <= i < |es| ==> es[i].Valid()
    requires Disjoint(MessageParts(ms)) && Model.Within(MessageParts(ms), mfp)
    requires Disjoint(Model.ServiceParts(ss)) && Model.Within(Model.ServiceParts(ss), sfp)
    requires Disjoint(Model.EnumParts(es)) && Model.Within(Model.EnumParts(es), efp)
    requires mfp !! sfp && mfp !! efp && sfp !! efp
    ensures f.Valid() && fresh(f) && f.Repr <= {f} + mfp + sfp + efp
    ensures f.View() == LegacyDoc.File(name, MessagesView(ms), Model.ServicesView(ss), Model.EnumsView(es))
  {
    Model.DisjointConcat(MessageParts(ms), Model.ServiceParts(ss), mfp, sfp);
    Model.DisjointConcat(MessageParts(ms) + Model.ServiceParts(ss), Model.EnumParts(es), mfp + sfp, efp);
    Model.UnionWithin(FilePartsOf(ms, ss, es), mfp + sfp + efp);
    f := new File(name, ms, ss, es);
  }

  /** One iteration of `build_files`: the File of one proto_file, with its
      messages, then its services, then its enums. */
  method BuildFile(fd: FileDescriptor) returns (r: Result<File, Build.BuildError>)
    ensures match LegacyDoc.BuildFile(fd)
      case Ok(v) => r.Ok? && r.value.Valid() && fresh(r.value.Repr) && r.value.View() == v
      case Err(e) => r == Err(e)
  {
    ghost var mfp, sfp, efp: set<object>;
    var ms;
    ms, mfp := MakeMessages(fd.messageTypes);
    if ms.Err? {
      return Err(ms.error);
    }
    ghost var mv := MessagesView(ms.value);
    var ss;
    ss, sfp := Model.MakeServiceObjects(fd.services);
    assert MessagesView(ms.value) == mv;
    ghost var sv := Model.ServicesView(ss);
    var es;
    es, efp := Model.MakeEnumObjects(fd.enumTypes);
    assert MessagesView(ms.value) == mv;
    assert Model.ServicesView(ss) == sv;
    ghost var ev := Model.EnumsView(es);
    var f := AssembleFile(fd.name, ms.value, ss, es, mfp, sfp, efp);
    assert MessagesView(ms.value) == mv;
    assert Model.ServicesView(ss) == sv;
    assert Model.EnumsView(es) == ev;
    assert f.View() == LegacyDoc.File(fd.name, mv, sv, ev);
    assert LegacyDoc.BuildFile(fd) == Ok(f.View());
    assert fresh(mfp + sfp + efp);
    return Ok(f);
  }

  /** `build_files`: one File per proto_file of the request, in order, with
      pairwise disjoint footprints. */
  method BuildFiles(req: Request) returns (r: Result<seq<File>, Build.BuildError>)
    ensures match LegacyDoc.BuildFiles(req.protoFiles)
      case Ok(v) =>
        r.Ok? && (forall j :: 0 <= j < |r.value| ==> r.value[j].Valid() && fresh(r.value[j].Repr))
        && Disjoint(FileParts(r.value)) && FilesView(r.value) == v
      case Err(e) => r == Err(e)
  {
    var fds := req.protoFiles;
    var files: seq<File> := [];
    ghost var fp: set<object> := {};
    assert fds[..0] == [];
    for i := 0 to |fds|
      invariant |files| == i && fresh(fp)
      invariant forall j :: 0 <= j < i ==> files[j].Valid() && files[j].Repr <= fp
      invariant Disjoint(FileParts(files))
      invariant LegacyDoc.BuildFiles(fds[..i]) == Ok(FilesView(files))
    {
      ghost var v := FilesView(files);
      assert fds[..i + 1][..i] == fds[..i];
      var f := BuildFile(fds[i]);
      if f.Err? {
        LegacyDoc.FilesStop(fds, i + 1);
        return Err(f.error);
      }
      assert FilesView(files) == v;
      assert fp !! f.value.Repr;
      DisjointAppend(FileParts(files), f.value.Repr);
      assert FileParts(files + [f.value]) == FileParts(files) + [f.value.Repr];
      assert FilesView(files + [f.value]) == FilesView(files) + [f.value.View()];
      files := files + [f.value];
      fp := fp + f.value.Repr;
    }
    assert fds[..|fds|] == fds;
    return Ok(files);
  }
}
