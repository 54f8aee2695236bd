/** The mutable document tree of auto_proto_doc/model.py. Each dataclass is a
    class whose list fields are fixed once the node is built (nothing in the
    core changes them afterwards) and whose `description` is the one field
    that `add_description` assigns. Every class has a footprint `Repr`, a
    heap-independent `Valid()` saying the footprints of its children are
    disjoint, and a `View()` giving its current contents as a value of module
    Doc; each `AddDescription` method is proved to change that view exactly as
    the matching function of module Doc says, and to change nothing when the
    Python code would raise. */
module Model {
  import opened Util
  import opened Descriptor
  import Doc
  import Build
  import DataTypes

  /** The views of a list of field objects. */
  ghost function FieldViews(fs: seq<MessageField>): (r: seq<Doc.Field>)
    reads fs
    ensures |r| == |fs|
  {
    seq(|fs|, i requires 0 <= i < |fs| reads fs => fs[i].View())
  }

  /** The views of a list of rpc objects. */
  ghost function RpcViews(rs: seq<RPC>): (r: seq<Doc.Rpc>)
    reads rs
    ensures |r| == |rs|
  {
    seq(|rs|, i requires 0 <= i < |rs| reads rs => rs[i].View())
  }

  /** The views of a list of enum value objects. */
  ghost function ValueViews(vs: seq<ProtoEnumValue>): (r: seq<Doc.EnumValue>)
    reads vs
    ensures |r| == |vs|
  {
    seq(|vs|, i requires 0 <= i < |vs| reads vs => vs[i].View())
  }

  class MessageField {
    const name: string
    const typ: string
    const isPrimitive: bool
    var repeated: bool
    var description: string

    function View(): Doc.Field
      reads this
    {
      Doc.Field(name, typ, isPrimitive, repeated, description)
    }

    /** `MessageField(name, typ, is_primitive)`: not repeated, blank. */
    constructor (name: string, typ: string, isPrimitive: bool)
      ensures View() == Doc.Field(name, typ, isPrimitive, false, "")
    {
      this.name, this.typ, this.isPrimitive := name, typ, isPrimitive;
      repeated, description := false, "";
    }

    /** `MessageField.add_description`. */
    method AddDescription(d: string, path: seq<int>)
      modifies this
      ensures View() == Doc.FieldAddDescription(old(View()), d, path)
    {
      if |path| < 2 {
        description := d;
      }
    }
  }

  class RPC {
    const name: string
    const inputType: string
    const outputType: string
    var description: string

    function View(): Doc.Rpc
      reads this
    {
      Doc.Rpc(name, inputType, outputType, description)
    }

    constructor (name: string, inputType: string, outputType: string)
      ensures View() == Doc.Rpc(name, inputType, outputType, "")
    {
      this.name, this.inputType, this.outputType := name, inputType, outputType;
      description := "";
    }

    /** `RPC.add_description`. */
    method AddDescription(d: string, path: seq<int>)
      modifies this
      ensures View() == Doc.RpcAddDescription(old(View()), d, path)
    {
      if |path| < 2 {
        description := d;
      }
    }
  }

  class ProtoEnumValue {
    const name: string
    var description: string

    function View(): Doc.EnumValue
      reads this
    {
      Doc.EnumValue(name, description)
    }

    constructor (name: string)
      ensures View() == Doc.EnumValue(name, "")
    {
      this.name := name;
      description := "";
    }

    /** `ProtoEnumValue.add_description`. */
    method AddDescription(d: string, path: seq<int>)
      modifies this
      ensures View() == Doc.EnumValueAddDescription(old(View()), d, path)
    {
      if |path| < 2 {
        description := d;
      }
    }
  }

  class Service {
    const name: string
    const rpcs: seq<RPC>
    var description: string
    ghost const Repr: set<object>

    ghost predicate Valid() {
      Repr == {this} + (set i | 0 <= i < |rpcs| :: rpcs[i]) && NoDup(rpcs)
    }

    ghost function View(): Doc.Service
      requires Valid()
      reads Repr
    {
      Doc.Service(name, RpcViews(rpcs), description)
    }

    constructor (name: string, rpcs: seq<RPC>)
      requires NoDup(rpcs)
      ensures Valid() && Repr == {this} + (set i | 0 <= i < |rpcs| :: rpcs[i])
      ensures View() == Doc.Service(name, RpcViews(rpcs), "")
    {
      this.name, this.rpcs := name, rpcs;
      description := "";
      Repr := {this} + (set i | 0 <= i < |rpcs| :: rpcs[i]);
    }

    /** `Service.add_description`: the result is the exception raised, if
        any, and then nothing has changed. */
    method AddDescription(d: string, path: seq<int>) returns (raised: Option<Doc.PathError>)
      requires Valid()
      modifies Repr
      ensures match Doc.ServiceAddDescription(old(View()), d, path)
        case Ok(s) => raised.None? && View() == s
        case Err(e) => raised == Some(e) && unchanged(Repr)
    {
      if |path| < 2 {
        return None;
      }
      if path[0] == SERVICE_METHOD {
        var k := PyIndex(path[1], |rpcs|);
        if k.None? {
          return Some(Doc.IndexError(path[1]));
        }
        var r := rpcs[k.value];
        ghost var before := old(View());
        r.AddDescription(d, path[2..]);
        assert forall i :: 0 <= i < |rpcs| && i != k.value ==> rpcs[i].View() == old(rpcs[i].View());
        assert View().rpcs == before.rpcs[k.value := r.View()];
      }
      return None;
    }
  }

  class ProtoEnum {
    const name: string
    const values: seq<ProtoEnumValue>
    var description: string
    ghost const Repr: set<object>

    ghost predicate Valid() {
      Repr == {this} + (set i | 0 <= i < |values| :: values[i]) && NoDup(values)
    }

    ghost function View(): Doc.Enum
      requires Valid()
      reads Repr
    {
      Doc.Enum(name, ValueViews(values), description)
    }

    constructor (name: string, values: seq<ProtoEnumValue>)
      requires NoDup(values)
      ensures Valid() && Repr == {this} + (set i | 0 <= i < |values| :: values[i])
      ensures View() == Doc.Enum(name, ValueViews(values), "")
    {
      this.name, this.values := name, values;
      description := "";
      Repr := {this} + (set i | 0 <= i < |values| :: values[i]);
    }

    /** `ProtoEnum.add_description`; the value is handed the untrimmed path. */
    method AddDescription(d: string, path: seq<int>) returns (raised: Option<Doc.PathError>)
      requires Valid()
      modifies Repr
      ensures match Doc.EnumAddDescription(old(View()), d, path)
        case Ok(e) => raised.None? && View() == e
        case Err(e) => raised == Some(e) && unchanged(Repr)
    {
      if |path| < 2 {
        description := d;
        return None;
      }
      if path[0] == ENUM_VALUE {
        var k := PyIndex(path[1], |values|);
        if k.None? {
          return Some(Doc.IndexError(path[1]));
        }
        var v := values[k.value];
        ghost var before := old(View());
        v.AddDescription(d, path);
        assert forall i :: 0 <= i < |values| && i != k.value ==> values[i].View() == old(values[i].View());
        assert View().values == before.values[k.value := v.View()];
      }
      return None;
    }

    /** `ProtoEnum.make_enum`. */
    static method MakeEnum(ed: EnumDescriptor) returns (e: ProtoEnum)
      ensures fresh(e.Repr) && e.Valid() && e.View() == Build.MakeEnum(ed)
    {
      var vs: seq<ProtoEnumValue> := [];
      for i := 0 to |ed.values|
        invariant |vs| == i && NoDup(vs)
        invariant forall j :: 0 <= j < i ==> fresh(vs[j]) && vs[j].View() == Doc.EnumValue(ed.values[j].name, "")
      {
        var v := new ProtoEnumValue(ed.values[i].name);
        vs := vs + [v];
      }
      e := new ProtoEnum(ed.name, vs);
    }
  }

  class OneOfGroup {
    const name: string
    const fields: seq<MessageField>
    var description: string
    ghost const Repr: set<object>

    ghost predicate Valid() {
      Repr == {this} + (set i | 0 <= i < |fields| :: fields[i]) && NoDup(fields)
    }

    ghost function View(): Doc.OneOf
      requires Valid()
      reads Repr
    {
      Doc.OneOf(name, FieldViews(fields), description)
    }

    constructor (name: string, fields: seq<MessageField>)
      requires NoDup(fields)
      ensures Valid() && Repr == {this} + (set i | 0 <= i < |fields| :: fields[i])
      ensures this.name == name && this.fields == fields
      ensures View() == Doc.OneOf(name, FieldViews(fields), "")
    {
      this.name, this.fields := name, fields;
      description := "";
      Repr := {this} + (set i | 0 <= i < |fields| :: fields[i]);
    }

    /** `OneOfGroup.add_description`. */
    method AddDescription(d: string, path: seq<int>)
      requires Valid()
      modifies this
      ensures View() == Doc.OneOfAddDescription(old(View()), d, path)
    {
      if |path| < 2 {
        description := d;
      }
    }
  }

  function Single(o: object): set<object> { {o} }

  /** The footprints of a message's children, in the order fields, oneof
      groups, nested messages, enums. */
  ghost function PartsOf(fields: seq<MessageField>, groups: seq<OneOfGroup>, messages: seq<Message>, enums: seq<ProtoEnum>)
    : (r: seq<set<object>>)
    ensures |r| == |fields| + |groups| + |messages| + |enums|
    ensures forall i :: 0 <= i < |fields| ==> r[i] == {fields[i]}
    ensures forall k :: 0 <= k < |groups| ==> r[|fields| + k] == groups[k].Repr
    ensures forall i :: 0 <= i < |messages| ==> r[|fields| + |groups| + i] == messages[i].Repr
    ensures forall i :: 0 <= i < |enums| ==> r[|fields| + |groups| + |messages| + i] == enums[i].Repr
  {
    seq(|fields|, i requires 0 <= i < |fields| => Single(fields[i]))
    + seq(|groups|, k requires 0 <= k < |groups| => groups[k].Repr)
    + seq(|messages|, i requires 0 <= i < |messages| => messages[i].Repr)
    + seq(|enums|, i requires 0 <= i < |enums| => enums[i].Repr)
  }

  ghost function Union(ss: seq<set<object>>): (r: set<object>)
    ensures forall i :: 0 <= i < |ss| ==> ss[i] <= r
    ensures forall o :: o in r ==> exists i :: 0 <= i < |ss| && o in ss[i]
  {
    if ss == [] then {} else Union(ss[..|ss| - 1]) + ss[|ss| - 1]
  }

  ghost function MaxHeight(ms: seq<Message>): (r: nat)
    ensures forall i :: 0 <= i < |ms| ==> ms[i].height <= r
  {
    if ms == [] then 0
    else
      var h := MaxHeight(ms[..|ms| - 1]);
      if ms[|ms| - 1].height > h then ms[|ms| - 1].height else h
  }

  class Message {
    const name: string
    const fields: seq<MessageField>
    const messages: seq<Message>
    const oneofGroups: seq<OneOfGroup>
    const enums: seq<ProtoEnum>
    var description: string
    ghost const Repr: set<object>
    /** Bounds the nesting depth, for recursion over nested messages. */
    ghost const height: nat

    ghost function Parts(): seq<set<object>> {
      PartsOf(fields, oneofGroups, messages, enums)
    }

    ghost predicate Valid()
      decreases height
    {
      this in Repr
      && (forall k :: 0 <= k < |oneofGroups| ==> oneofGroups[k].Valid())
      && (forall i :: 0 <= i < |messages| ==> messages[i].height < height && messages[i].Valid())
      && (forall i :: 0 <= i < |enums| ==> enums[i].Valid())
      && (forall j :: 0 <= j < |Parts()| ==> Parts()[j] <= Repr && this !in Parts()[j])
      && Disjoint(Parts())
    }

    ghost function View(): Doc.Message
      requires Valid()
      reads Repr
      decreases height, 1
    {
      Doc.Message(name, FieldViews(fields), MessageViews(), GroupViews(), EnumViews(), description)
    }

    ghost function MessageViews(): (r: seq<Doc.Message>)
      requires Valid()
      reads Repr
      ensures |r| == |messages|
      decreases height, 0
    {
      seq(|messages|, i requires 0 <= i < |messages| reads Repr => messages[i].View())
    }

    ghost function GroupViews(): (r: seq<Doc.OneOf>)
      requires Valid()
      reads Repr
      ensures |r| == |oneofGroups|
    {
      seq(|oneofGroups|, k requires 0 <= k < |oneofGroups| reads Repr => oneofGroups[k].View())
    }

    ghost function EnumViews(): (r: seq<Doc.Enum>)
      requires Valid()
      reads Repr
      ensures |r| == |enums|
    {
      seq(|enums|, i requires 0 <= i < |enums| reads Repr => enums[i].View())
    }

    constructor (name: string, fields: seq<MessageField>, messages: seq<Message>, oneofGroups: seq<OneOfGroup>,
                 enums: seq<ProtoEnum>)
      requires forall k :: 0 <= k < |oneofGroups| ==> oneofGroups[k].Valid()
      requires forall i :: 0 <= i < |messages| ==> messages[i].Valid()
      requires forall i :: 0 <= i < |enums| ==> enums[i].Valid()
      requires Disjoint(PartsOf(fields, oneofGroups, messages, enums))
      ensures Valid() && Repr == {this} + Union(PartsOf(fields, oneofGroups, messages, enums))
      ensures this.fields == fields && this.messages == messages && this.oneofGroups == oneofGroups && this.enums == enums
      ensures View() == Doc.Message(name, FieldViews(fields), MessagesView(messages), GroupsView(oneofGroups), EnumsView(enums), "")
    {
      this.name, this.fields, this.messages, this.oneofGroups, this.enums := name, fields, messages, oneofGroups, enums;
      description := "";
      Repr := {this} + Union(PartsOf(fields, oneofGroups, messages, enums));
      height := MaxHeight(messages) + 1;
      new;
      assert this !in Union(Parts());
      assert forall j :: 0 <= j < |Parts()| ==> Parts()[j] <= Repr && this !in Parts()[j];
      assert Valid();
      ChildViews();
    }

    /** The views of the children, as the module-level view functions give
        them. */
    lemma ChildViews()
      requires Valid()
      ensures MessageViews() == MessagesView(messages)
      ensures GroupViews() == GroupsView(oneofGroups)
      ensures EnumViews() == EnumsView(enums)
    {
    }

    function GroupSizes(): (r: seq<nat>)
      ensures |r| == |oneofGroups|
      ensures forall k :: 0 <= k < |oneofGroups| ==> r[k] == |oneofGroups[k].fields|
    {
      seq(|oneofGroups|, k requires 0 <= k < |oneofGroups| => |oneofGroups[k].fields|)
    }

    predicate SlotIn(s: Doc.Slot) {
      match s
      case Direct(i) => i < |fields|
      case InGroup(g, i) => g < |oneofGroups| && i < |oneofGroups[g].fields|
    }

    /** The field object stored in slot `s`. */
    function FieldIn(s: Doc.Slot): MessageField
      requires SlotIn(s)
    {
      match s
      case Direct(i) => fields[i]
      case InGroup(g, i) => oneofGroups[g].fields[i]
    }

    lemma ShapeView()
      requires Valid()
      ensures Doc.Sizes(View().oneofGroups) == GroupSizes() && |View().fields| == |fields|
    {
      assert Doc.Sizes(View().oneofGroups) == GroupSizes();
    }

    /** The view of the field in slot `s` is the view's field in that slot. */
    lemma SlotView(s: Doc.Slot)
      requires Valid() && SlotIn(s)
      ensures Doc.Sizes(View().oneofGroups) == GroupSizes() && |View().fields| == |fields|
      ensures Doc.SlotValid(View(), s) && Doc.FieldAt(View(), s) == FieldIn(s).View()
      ensures FieldIn(s) in Repr
    {
      ShapeView();
      if s.InGroup? {
        assert oneofGroups[s.g].Repr == Parts()[|fields| + s.g];
      }
    }

    /** `Message.get_field(fn)`: the field object at position `fn` of the walk
        over the direct fields and then each oneof group's fields, or None. */
    function GetField(fn: int): (r: Option<MessageField>)
      requires Valid()
      reads Repr
      ensures r.Some? <==> 0 <= fn < |Doc.AllFields(View())|
      ensures r.Some? ==> r.value in Repr && r.value.View() == Doc.AllFields(View())[fn]
    {
      Doc.FieldSlotInRange(|fields|, GroupSizes(), fn);
      match Doc.FieldSlot(|fields|, GroupSizes(), fn)
      case None =>
        ShapeView();
        Doc.GroupFieldsLength(View().oneofGroups);
        None
      case Some(s) =>
        SlotView(s);
        Doc.SetFieldAtWalk(View(), fn, FieldIn(s).View());
        Some(FieldIn(s))
    }

    /** One pass of the field loop of `_make_message`: the display name or
        the type name, then `repeated` for LABEL_REPEATED. */
    static method MakeField(fd: FieldDescriptor) returns (r: Result<MessageField, Build.BuildError>)
      ensures match Build.MakeField(fd)
        case Ok(f) => r.Ok? && fresh(r.value) && r.value.View() == f
        case Err(e) => r == Err(e)
    {
      var t := DataTypes.FromCode(fd.typeCode);
      if t.None? {
        return Err(Build.UnknownTypeCode(fd.typeCode));
      }
      var ts: string, isPrim: bool;
      match DataTypes.DisplayString(t.value) {
        case NotInTable =>
          return Err(Build.NoDisplayName(fd.typeCode));
        case Shown(name) =>
          ts, isPrim := name, true;
        case UseMessageTypeName =>
          ts, isPrim := fd.typeName, false;
      }
      var mf := new MessageField(fd.name, ts, isPrim);
      if fd.labelCode == LABEL_REPEATED {
        mf.repeated := true;
      }
      return Ok(mf);
    }

    /** `Message.make_message`: a top-level message, named without a prefix. */
    static method MakeMessage(md: MessageDescriptor) returns (r: Result<Message, Build.BuildError>)
      ensures match Build.MakeMessage(md, None)
        case Ok(v) => r.Ok? && r.value.Valid() && fresh(r.value.Repr) && r.value.View() == v
        case Err(e) => r == Err(e)
    {
      r := MakeMessageIn(md, None);
    }

    /** `Message._make_message(md, prefix)`. The oneof group objects are
        created once the field loop has collected their lists. */
    static method MakeMessageIn(md: MessageDescriptor, prefix: Option<string>) returns (r: Result<Message, Build.BuildError>)
      ensures match Build.MakeMessage(md, prefix)
        case Ok(v) => r.Ok? && r.value.Valid() && fresh(r.value.Repr) && r.value.View() == v
        case Err(e) => r == Err(e)
      decreases md, 3
    {
      var name := Build.QualifiedName(prefix, md.name);
      ghost var ofp, cfp;
      var own;
      own, ofp := MakeOwnObjects(md);
      if own.Err? {
        return Err(own.error);
      }
      var (direct, groups) := own.value;
      ghost var fv, gv := FieldViews(direct), GroupsView(groups);
      var kids;
      kids, cfp := MakeChildObjects(md, name);
      if kids.Err? {
        return Err(kids.error);
      }
      var (nested, enums) := kids.value;
      assert FieldViews(direct) == fv;
      assert GroupsView(groups) == gv;
      WithinSplit(direct, groups, nested, enums, ofp, cfp);
      ghost var nv, ev := MessagesView(nested), EnumsView(enums);
      var m := Assemble(name, direct, groups, nested, enums, ofp, cfp);
      assert FieldViews(direct) == fv;
      assert GroupsView(groups) == gv;
      assert MessagesView(nested) == nv;
      assert EnumsView(enums) == ev;
      assert m.View() == Doc.Message(name, Build.PlaceFields(md.fields, |md.oneofDecls|).value.direct,
        Build.MakeNested(md, |md.nestedTypes|, name).value,
        Build.MakeGroups(md.oneofDecls, Build.PlaceFields(md.fields, |md.oneofDecls|).value.groups),
        Build.MakeEnums(md.enumTypes), "");
      assert Build.MakeMessage(md, prefix) == Ok(m.View());
      assert fresh(ofp) && fresh(cfp);
      return Ok(m);
    }

    /** The oneof groups and the field loop of `_make_message`; `fp` holds
        every object created. */
    static method MakeOwnObjects(md: MessageDescriptor)
      returns (r: Result<(seq<MessageField>, seq<OneOfGroup>), Build.BuildError>, ghost fp: set<object>)
      ensures fresh(fp)
      ensures match Build.PlaceFields(md.fields, |md.oneofDecls|)
        case Ok(p) =>
          r.Ok? && |r.value.1| == |md.oneofDecls|
          && (forall k :: 0 <= k < |r.value.1| ==> r.value.1[k].Valid())
          && Disjoint(PartsOf(r.value.0, r.value.1, [], []))
          && Within(PartsOf(r.value.0, r.value.1, [], []), fp)
          && FieldViews(r.value.0) == p.direct
          && GroupsView(r.value.1) == Build.MakeGroups(md.oneofDecls, p.groups)
        case Err(e) => r == Err(e)
    {
      fp := {};
      var placed := PlaceFieldObjects(md.fields, |md.oneofDecls|);
      if placed.Err? {
        return Err(placed.error), fp;
      }
      var (direct, grouped) := placed.value;
      ghost var fv := FieldViews(direct);
      var groups := MakeGroupObjects(md.oneofDecls, grouped);
      assert FieldViews(direct) == fv;
      GroupsDisjoint(direct, grouped, groups);
      fp := (set i | 0 <= i < |direct| :: direct[i] as object) + GroupedObjects(grouped)
        + (set k | 0 <= k < |groups| :: groups[k] as object);
      OwnPartsWithin(direct, grouped, groups);
      return Ok((direct, groups)), fp;
    }

    /** The nested messages and the enums of `_make_message`; `fp` holds
        every object created. */
    static method MakeChildObjects(md: MessageDescriptor, name: string)
      returns (r: Result<(seq<Message>, seq<ProtoEnum>), Build.BuildError>, ghost fp: set<object>)
      ensures fresh(fp)
      ensures match Build.MakeNested(md, |md.nestedTypes|, name)
        case Ok(v) =>
          r.Ok? && (forall j :: 0 <= j < |r.value.0| ==> r.value.0[j].Valid())
          && (forall j :: 0 <= j < |r.value.1| ==> r.value.1[j].Valid())
          && Disjoint(MessageParts(r.value.0) + EnumParts(r.value.1))
          && Within(MessageParts(r.value.0) + EnumParts(r.value.1), fp)
          && MessagesView(r.value.0) == v
          && EnumsView(r.value.1) == Build.MakeEnums(md.enumTypes)
        case Err(e) => r == Err(e)
      decreases md, 2
    {
      ghost var nfp, efp;
      var nested;
      nested, nfp := MakeNestedObjects(md, name);
      if nested.Err? {
        return Err(nested.error), nfp;
      }
      ghost var nv := MessagesView(nested.value);
      var enums;
      enums, efp := MakeEnumObjects(md.enumTypes);
      assert MessagesView(nested.value) == nv;
      DisjointConcat(MessageParts(nested.value), EnumParts(enums), nfp, efp);
      return Ok((nested.value, enums)), nfp + efp;
    }

    /** The final step of `_make_message`: the message object over its
        children, whose footprints lie in `ofp` and `cfp`. */
    static method Assemble(name: string, direct: seq<MessageField>, groups: seq<OneOfGroup>, nested: seq<Message>,
                           enums: seq<ProtoEnum>, ghost ofp: set<object>, ghost cfp: set<object>)
      returns (m: Message)
      requires forall k :: 0 <= k < |groups| ==> groups[k].Valid()
      requires forall i :: 0 <= i < |nested| ==> nested[i].Valid()
      requires forall i :: 0 <= i < |enums| ==> enums[i].Valid()
      requires Disjoint(PartsOf(direct, groups, [], [])) && Within(PartsOf(direct, groups, [], []), ofp)
      requires Disjoint(MessageParts(nested) + EnumParts(enums)) && Within(MessageParts(nested) + EnumParts(enums), cfp)
      requires ofp !! cfp
      ensures m.Valid() && fresh(m) && m.Repr <= {m} + ofp + cfp
      ensures m.View() == Doc.Message(name, FieldViews(direct), MessagesView(nested), GroupsView(groups), EnumsView(enums), "")
    {
      ghost var op, cp := PartsOf(direct, groups, [], []), MessageParts(nested) + EnumParts(enums);
      DisjointConcat(op, cp, ofp, cfp);
      PartsSplit(direct, groups, nested, enums);
      assert PartsOf(direct, groups, nested, enums) == op + cp;
      UnionWithin(op + cp, ofp + cfp);
      m := new Message(name, direct, nested, groups, enums);
    }

    /** The field loop of `_make_message`: each declaration's field object is
        appended to the message's list or to its oneof group's list. */
    static method PlaceFieldObjects(fs: seq<FieldDescriptor>, groupCount: nat)
      returns (r: Result<(seq<MessageField>, seq<seq<MessageField>>), Build.BuildError>)
      ensures match Build.PlaceFields(fs, groupCount)
        case Ok(p) =>
          r.Ok? && |r.value.1| == groupCount && Separate(r.value.0, r.value.1)
          && (forall j :: 0 <= j < |r.value.0| ==> fresh(r.value.0[j]))
          && (forall o :: o in GroupedObjects(r.value.1) ==> fresh(o))
          && p == Build.Placed(FieldViews(r.value.0), GroupedViews(r.value.1))
        case Err(e) => r == Err(e)
    {
      var direct: seq<MessageField> := [];
      var grouped: seq<seq<MessageField>> := seq(groupCount, _ => []);
      assert fs[..0] == [];
      assert GroupedViews(grouped) == seq(groupCount, _ => []);
      for i := 0 to |fs|
        invariant |grouped| == groupCount && Separate(direct, grouped)
        invariant forall j :: 0 <= j < |direct| ==> fresh(direct[j])
        invariant forall o :: o in GroupedObjects(grouped) ==> fresh(o)
        invariant Build.PlaceFields(fs[..i], groupCount) == Ok(Build.Placed(FieldViews(direct), GroupedViews(grouped)))
      {
        var fd := fs[i];
        assert fs[..i + 1][..i] == fs[..i];
        var f := MakeField(fd);
        if f.Err? {
          Build.PlaceFieldsStops(fs, groupCount, i + 1);
          return Err(f.error);
        }
        var mf := f.value;
        assert mf !in direct && mf !in GroupedObjects(grouped);
        if fd.oneofIndex.None? {
          DirectAppend(direct, grouped, mf);
          direct := direct + [mf];
        } else {
          var k := PyIndex(fd.oneofIndex.value, groupCount);
          if k.None? {
            Build.PlaceFieldsStops(fs, groupCount, i + 1);
            return Err(Build.OneofIndexOutOfRange(fd.oneofIndex.value));
          }
          GroupedAppend(direct, grouped, k.value, mf);
          grouped := grouped[k.value := grouped[k.value] + [mf]];
        }
      }
      assert fs[..|fs|] == fs;
      return Ok((direct, grouped));
    }

    /** One OneOfGroup per oneof declaration, holding the collected fields. */
    static method MakeGroupObjects(decls: seq<OneofDescriptor>, grouped: seq<seq<MessageField>>)
      returns (groups: seq<OneOfGroup>)
      requires |grouped| == |decls|
      requires forall k :: 0 <= k < |grouped| ==> NoDup(grouped[k])
      ensures |groups| == |decls| && NoDup(groups)
      ensures forall k :: 0 <= k < |groups| ==> fresh(groups[k]) && groups[k].Valid() && groups[k].fields == grouped[k]
      ensures GroupsView(groups) == Build.MakeGroups(decls, GroupedViews(grouped))
    {
      groups := [];
      for k := 0 to |decls|
        invariant |groups| == k && NoDup(groups)
        invariant forall k' :: 0 <= k' < k ==>
          fresh(groups[k']) && groups[k'].Valid() && groups[k'].fields == grouped[k']
          && groups[k'].View() == Doc.OneOf(decls[k'].name, FieldViews(grouped[k']), "")
      {
        var g := new OneOfGroup(decls[k].name, grouped[k]);
        groups := groups + [g];
      }
    }

    /** The nested messages, each named under `name`; `fp` holds every
        object created. */
    static method MakeNestedObjects(md: MessageDescriptor, name: string)
      returns (r: Result<seq<Message>, Build.BuildError>, ghost fp: set<object>)
      ensures fresh(fp)
      ensures match Build.MakeNested(md, |md.nestedTypes|, name)
        case Ok(v) =>
          r.Ok? && (forall j :: 0 <= j < |r.value| ==> r.value[j].Valid())
          && Within(MessageParts(r.value), fp)
          && Disjoint(MessageParts(r.value)) && MessagesView(r.value) == v
        case Err(e) => r == Err(e)
      decreases md, 1
    {
      var nested: seq<Message> := [];
      fp := {};
      for i := 0 to |md.nestedTypes|
        invariant |nested| == i && fresh(fp)
        invariant forall j :: 0 <= j < i ==> nested[j].Valid() && nested[j].Repr <= fp
        invariant Disjoint(MessageParts(nested))
        invariant Build.MakeNested(md, i, name) == Ok(MessagesView(nested))
      {
        var next;
        next, fp := AddNestedObject(md, name, nested, fp);
        if next.Err? {
          Build.NestedStops(md, i + 1, |md.nestedTypes|, name);
          return Err(next.error), fp;
        }
        nested := next.value;
      }
      return Ok(nested), fp;
    }

    /** One iteration of the nested-message loop: the message object of
        declaration `|nested|`, appended to those built so far. */
    static method AddNestedObject(md: MessageDescriptor, name: string, nested: seq<Message>, ghost fp: set<object>)
      returns (r: Result<seq<Message>, Build.BuildError>, ghost fp': set<object>)
      requires |nested| < |md.nestedTypes|
      requires forall j :: 0 <= j < |nested| ==> nested[j].Valid() && nested[j].Repr <= fp
      requires Disjoint(MessageParts(nested))
      requires Build.MakeNested(md, |nested|, name) == Ok(MessagesView(nested))
      ensures fp <= fp' && fresh(fp' - fp)
      ensures match Build.MakeNested(md, |nested| + 1, name)
        case Ok(v) =>
          r.Ok? && |r.value| == |nested| + 1
          && (forall j :: 0 <= j < |r.value| ==> r.value[j].Valid() && r.value[j].Repr <= fp')
          && Disjoint(MessageParts(r.value)) && MessagesView(r.value) == v
        case Err(e) => r == Err(e)
      decreases md, 0
    {
      var i := |nested|;
      ghost var nv := MessagesView(nested);
      var sub := MakeMessageIn(md.nestedTypes[i], Some(name));
      Build.NestedStep(md, i + 1, name);
      if sub.Err? {
        return Err(sub.error), fp;
      }
      assert MessagesView(nested) == nv;
      assert fp !! sub.value.Repr;
      DisjointAppend(MessageParts(nested), sub.value.Repr);
      assert MessageParts(nested + [sub.value]) == MessageParts(nested) + [sub.value.Repr];
      MessagesViewAppend(nested, sub.value);
      return Ok(nested + [sub.value]), fp + sub.value.Repr;
    }

    /** Changing only the footprint of child `j` leaves every other child's
        view, and this message's own description, as they were. */
    twostate lemma OthersUnchanged(j: nat)
      requires Valid() && j < |Parts()|
      requires unchanged(Repr - Parts()[j])
      ensures description == old(description)
      ensures forall i :: 0 <= i < |fields| && i != j ==> fields[i].View() == old(fields[i].View())
      ensures forall k :: 0 <= k < |oneofGroups| && |fields| + k != j ==>
        oneofGroups[k].View() == old(oneofGroups[k].View())
      ensures forall i :: 0 <= i < |messages| && |fields| + |oneofGroups| + i != j ==>
        messages[i].View() == old(messages[i].View())
      ensures forall i :: 0 <= i < |enums| && |fields| + |oneofGroups| + |messages| + i != j ==>
        enums[i].View() == old(enums[i].View())
    {
      var ps := Parts();
      forall i | 0 <= i < |fields| && i != j
        ensures fields[i].View() == old(fields[i].View())
      {
        assert ps[i] !! ps[j];
      }
      forall k | 0 <= k < |oneofGroups| && |fields| + k != j
        ensures oneofGroups[k].View() == old(oneofGroups[k].View())
      {
        assert ps[|fields| + k] !! ps[j];
      }
      forall i | 0 <= i < |messages| && |fields| + |oneofGroups| + i != j
        ensures messages[i].View() == old(messages[i].View())
      {
        assert ps[|fields| + |oneofGroups| + i] !! ps[j];
      }
      forall i | 0 <= i < |enums| && |fields| + |oneofGroups| + |messages| + i != j
        ensures enums[i].View() == old(enums[i].View())
      {
        assert ps[|fields| + |oneofGroups| + |messages| + i] !! ps[j];
      }
    }

    /** After a change confined to child `j`, the field views differ at
        most in that child. */
    twostate lemma FieldsAfter(j: nat)
      requires Valid() && j < |Parts()|
      requires unchanged(Repr - Parts()[j])
      ensures j < |fields| ==> FieldViews(fields) == old(FieldViews(fields))[j := fields[j].View()]
      ensures |fields| <= j ==> FieldViews(fields) == old(FieldViews(fields))
    {
      OthersUnchanged(j);
      forall i | 0 <= i < |fields| && i != j
        ensures FieldViews(fields)[i] == old(FieldViews(fields))[i]
      {
      }
    }

    /** After a change confined to child `j`, the group views differ at most
        in that child. */
    twostate lemma GroupsAfter(j: nat)
      requires Valid() && j < |Parts()|
      requires unchanged(Repr - Parts()[j])
      ensures |fields| <= j < |fields| + |oneofGroups| ==>
        GroupViews() == old(GroupViews())[j - |fields| := oneofGroups[j - |fields|].View()]
      ensures !(|fields| <= j < |fields| + |oneofGroups|) ==> GroupViews() == old(GroupViews())
    {
      OthersUnchanged(j);
      forall k | 0 <= k < |oneofGroups| && |fields| + k != j
        ensures GroupViews()[k] == old(GroupViews())[k]
      {
      }
    }

    /** After a change confined to child `j`, the nested message views
        differ at most in that child. */
    twostate lemma NestedAfter(j: nat)
      requires Valid() && j < |Parts()|
      requires unchanged(Repr - Parts()[j])
      ensures var b := |fields| + |oneofGroups|;
        b <= j < b + |messages| ==> MessageViews() == old(MessageViews())[j - b := messages[j - b].View()]
      ensures var b := |fields| + |oneofGroups|;
        !(b <= j < b + |messages|) ==> MessageViews() == old(MessageViews())
    {
      OthersUnchanged(j);
      var b := |fields| + |oneofGroups|;
      forall i | 0 <= i < |messages| && b + i != j
        ensures MessageViews()[i] == old(MessageViews())[i]
      {
      }
    }

    /** After a change confined to child `j`, the enum views differ at most
        in that child. */
    twostate lemma EnumsAfter(j: nat)
      requires Valid() && j < |Parts()|
      requires unchanged(Repr - Parts()[j])
      ensures var c := |fields| + |oneofGroups| + |messages|;
        c <= j ==> EnumViews() == old(EnumViews())[j - c := enums[j - c].View()]
      ensures var c := |fields| + |oneofGroups| + |messages|;
        j < c ==> EnumViews() == old(EnumViews())
    {
      OthersUnchanged(j);
      var c := |fields| + |oneofGroups| + |messages|;
      forall i | 0 <= i < |enums| && c + i != j
        ensures EnumViews()[i] == old(EnumViews())[i]
      {
      }
    }

    /** Changing only this object leaves every child's view as it was. */
    twostate lemma ChildrenUnchanged()
      requires Valid()
      requires unchanged(Repr - {this})
      ensures FieldViews(fields) == old(FieldViews(fields))
      ensures MessageViews() == old(MessageViews())
      ensures GroupViews() == old(GroupViews())
      ensures EnumViews() == old(EnumViews())
    {
      var ps := Parts();
      assert forall i :: 0 <= i < |fields| ==> ps[i] == {fields[i]};
      assert forall k :: 0 <= k < |oneofGroups| ==> ps[|fields| + k] == oneofGroups[k].Repr;
      assert forall i :: 0 <= i < |messages| ==> ps[|fields| + |oneofGroups| + i] == messages[i].Repr;
      assert forall i :: 0 <= i < |enums| ==> ps[|fields| + |oneofGroups| + |messages| + i] == enums[i].Repr;
    }

    /** `Message.add_description`: the result is the exception raised, if
        any, and then nothing has changed. */
    method AddDescription(d: string, path: seq<int>) returns (raised: Option<Doc.PathError>)
      requires Valid()
      modifies Repr
      ensures match Doc.MessageAddDescription(old(View()), d, path)
        case Ok(m) => raised.None? && View() == m
        case Err(e) => raised == Some(e) && unchanged(Repr)
      decreases height, 1
    {
      ghost var v0 := View();
      raised := None;
      if |path| < 2 {
        description := d;
        ChildrenUnchanged();
        return None;
      }
      var tag, index, rest := path[0], path[1], path[2..];
      if tag == MESSAGE_FIELD {
        raised := AddFieldDescription(d, index, rest);
      } else if tag == MESSAGE_NESTED_TYPE {
        var k := PyIndex(index, |messages|);
        if k.None? {
          return Some(Doc.IndexError(index));
        }
        raised := DescribeNested(k.value, d, rest);
      } else if tag == MESSAGE_ENUM_TYPE {
        var k := PyIndex(index, |enums|);
        if k.None? {
          return Some(Doc.IndexError(index));
        }
        raised := DescribeEnum(k.value, d, rest);
      } else if tag == MESSAGE_ONEOF_DECL {
        var k := PyIndex(index, |oneofGroups|);
        if k.None? {
          return Some(Doc.IndexError(index));
        }
        DescribeOneOf(k.value, d, rest);
      }
    }

    /** `self.nested_type[k].add_description(d, rest)`. */
    method DescribeNested(k: nat, d: string, rest: seq<int>) returns (raised: Option<Doc.PathError>)
      requires Valid() && k < |messages|
      modifies Repr
      ensures |old(View()).messages| == |messages|
      ensures match Doc.MessageAddDescription(old(View()).messages[k], d, rest)
        case Ok(m) => raised.None? && View() == old(View()).(messages := old(View()).messages[k := m])
        case Err(e) => raised == Some(e) && unchanged(Repr)
      decreases height, 0
    {
      ghost var v0 := View();
      var sub := messages[k];
      var j := |fields| + |oneofGroups| + k;
      assert Parts()[j] == sub.Repr;
      raised := sub.AddDescription(d, rest);
      OthersUnchanged(j);
      if raised.None? {
        FieldsAfter(j);
        GroupsAfter(j);
        NestedAfter(j);
        EnumsAfter(j);
      }
    }

    /** `self.enum_type[k].add_description(d, rest)`. */
    method DescribeEnum(k: nat, d: string, rest: seq<int>) returns (raised: Option<Doc.PathError>)
      requires Valid() && k < |enums|
      modifies Repr
      ensures |old(View()).enums| == |enums|
      ensures match Doc.EnumAddDescription(old(View()).enums[k], d, rest)
        case Ok(e) => raised.None? && View() == old(View()).(enums := old(View()).enums[k := e])
        case Err(e) => raised == Some(e) && unchanged(Repr)
    {
      ghost var v0 := View();
      var e := enums[k];
      var j := |fields| + |oneofGroups| + |messages| + k;
      assert Parts()[j] == e.Repr;
      raised := e.AddDescription(d, rest);
      OthersUnchanged(j);
      if raised.None? {
        FieldsAfter(j);
        GroupsAfter(j);
        NestedAfter(j);
        EnumsAfter(j);
      }
    }

    /** `self.oneof_groups[k].add_description(d, rest)`. */
    method DescribeOneOf(k: nat, d: string, rest: seq<int>)
      requires Valid() && k < |oneofGroups|
      modifies Repr
      ensures |old(View()).oneofGroups| == |oneofGroups|
      ensures View() == old(View()).(oneofGroups := old(View()).oneofGroups[k := Doc.OneOfAddDescription(old(View()).oneofGroups[k], d, rest)])
    {
      ghost var v0 := View();
      var g := oneofGroups[k];
      var j := |fields| + k;
      assert Parts()[j] == g.Repr;
      g.AddDescription(d, rest);
      OthersUnchanged(j);
      FieldsAfter(j);
      GroupsAfter(j);
      NestedAfter(j);
      EnumsAfter(j);
    }

    /** The MESSAGE_FIELD branch of `add_description`: `get_field(index)`,
        whose None result raises AttributeError. */
    method AddFieldDescription(d: string, index: int, rest: seq<int>) returns (raised: Option<Doc.PathError>)
      requires Valid()
      modifies Repr
      ensures match Doc.MessageAddDescription(old(View()), d, [MESSAGE_FIELD, index] + rest)
        case Ok(m) => raised.None? && View() == m
        case Err(e) => raised == Some(e) && unchanged(Repr)
    {
      ghost var v0 := View();
      raised := None;
      ghost var path := [MESSAGE_FIELD, index] + rest;
      assert path[2..] == rest;
      ShapeView();
      Doc.FieldSlotInRange(|fields|, GroupSizes(), index);
      var f := GetField(index);
      if f.None? {
        return Some(Doc.NoField(index));
      }
      var slot := Doc.FieldSlot(|fields|, GroupSizes(), index).value;
      assert f.value == FieldIn(slot);
      SlotView(slot);
      match slot
      case Direct(i) => DescribeDirectField(i, d, rest);
      case InGroup(g, i) => DescribeGroupField(g, i, d, rest);
    }

    /** `mf.add_description(d, rest)` for the direct field `i`. */
    method DescribeDirectField(i: nat, d: string, rest: seq<int>)
      requires Valid() && i < |fields|
      modifies Repr
      ensures Doc.SlotValid(old(View()), Doc.Direct(i))
      ensures View() == Doc.SetFieldAt(old(View()), Doc.Direct(i),
                          Doc.FieldAddDescription(Doc.FieldAt(old(View()), Doc.Direct(i)), d, rest))
    {
      ghost var v0 := View();
      SlotView(Doc.Direct(i));
      var fld := fields[i];
      fld.AddDescription(d, rest);
      assert Parts()[i] == {fld};
      OthersUnchanged(i);
      FieldsAfter(i);
      GroupsAfter(i);
      NestedAfter(i);
      EnumsAfter(i);
    }

    /** `mf.add_description(d, rest)` for field `i` of oneof group `g`. */
    method DescribeGroupField(g: nat, i: nat, d: string, rest: seq<int>)
      requires Valid() && g < |oneofGroups| && i < |oneofGroups[g].fields|
      modifies Repr
      ensures Doc.SlotValid(old(View()), Doc.InGroup(g, i))
      ensures View() == Doc.SetFieldAt(old(View()), Doc.InGroup(g, i),
                          Doc.FieldAddDescription(Doc.FieldAt(old(View()), Doc.InGroup(g, i)), d, rest))
    {
      ghost var v0 := View();
      SlotView(Doc.InGroup(g, i));
      var grp := oneofGroups[g];
      var fld := grp.fields[i];
      fld.AddDescription(d, rest);
      assert Parts()[|fields| + g] == grp.Repr;
      OthersUnchanged(|fields| + g);
      assert forall i' :: 0 <= i' < |grp.fields| && i' != i ==> grp.fields[i'].View() == old(grp.fields[i'].View());
      assert FieldViews(grp.fields) == v0.oneofGroups[g].fields[i := fld.View()];
      GroupsAfter(|fields| + g);
      FieldsAfter(|fields| + g);
      NestedAfter(|fields| + g);
      EnumsAfter(|fields| + g);
      assert GroupViews() == v0.oneofGroups[g := v0.oneofGroups[g].(fields := v0.oneofGroups[g].fields[i := fld.View()])];
    }
  }

  /** The footprints of a file's children: messages, then services, then enums. */
  ghost function FilePartsOf(messages: seq<Message>, services: seq<Service>, enums: seq<ProtoEnum>)
    : (r: seq<set<object>>)
    ensures |r| == |messages| + |services| + |enums|
    ensures forall i :: 0 <= i < |messages| ==> r[i] == messages[i].Repr
    ensures forall i :: 0 <= i < |services| ==> r[|messages| + i] == services[i].Repr
    ensures forall i :: 0 <= i < |enums| ==> r[|messages| + |services| + i] == enums[i].Repr
  {
    seq(|messages|, i requires 0 <= i < |messages| => messages[i].Repr)
    + seq(|services|, i requires 0 <= i < |services| => services[i].Repr)
    + seq(|enums|, i requires 0 <= i < |enums| => enums[i].Repr)
  }

  class File {
    const name: string
    const messages: seq<Message>
    const services: seq<Service>
    const enums: seq<ProtoEnum>
    ghost const Repr: set<object>

    ghost function Parts(): seq<set<object>> {
      FilePartsOf(messages, services, enums)
    }

    ghost predicate Valid() {
      this in Repr
      && (forall i :: 0 <= i < |messages| ==> messages[i].Valid())
      && (forall i :: 0 <= i < |services| ==> services[i].Valid())
      && (forall i :: 0 <= i < |enums| ==> enums[i].Valid())
      && (forall j :: 0 <= j < |Parts()| ==> Parts()[j] <= Repr && this !in Parts()[j])
      && Disjoint(Parts())
    }

    ghost function View(): Doc.File
      requires Valid()
      reads Repr
    {
      Doc.File(
        name,
        seq(|messages|, i requires 0 <= i < |messages| reads Repr => messages[i].View()),
        seq(|services|, i requires 0 <= i < |services| reads Repr => services[i].View()),
        seq(|enums|, i requires 0 <= i < |enums| reads Repr => enums[i].View()))
    }

    constructor (name: string, messages: seq<Message>, services: seq<Service>, enums: seq<ProtoEnum>)
      requires forall i :: 0 <= i < |messages| ==> messages[i].Valid()
      requires forall i :: 0 <= i < |services| ==> services[i].Valid()
      requires forall i :: 0 <= i < |enums| ==> enums[i].Valid()
      requires Disjoint(FilePartsOf(messages, services, enums))
      ensures Valid() && Repr == {this} + Union(FilePartsOf(messages, services, enums))
      ensures this.name == name && this.messages == messages && this.services == services && this.enums == enums
      ensures View() == Doc.File(name, MessagesView(messages), ServicesView(services), EnumsView(enums))
    {
      this.name, this.messages, this.services, this.enums := name, messages, services, enums;
      Repr := {this} + Union(FilePartsOf(messages, services, enums));
      new;
      assert this !in Union(Parts());
      assert forall j :: 0 <= j < |Parts()| ==> Parts()[j] <= Repr && this !in Parts()[j];
      assert Valid();
      assert View().messages == MessagesView(messages);
      assert View().services == ServicesView(services);
      assert View().enums == EnumsView(enums);
    }

    /** Changing only the footprint of child `j` leaves every other child's
        view as it was. */
    twostate lemma OthersUnchanged(j: nat)
      requires Valid() && j < |Parts()|
      requires unchanged(Repr - Parts()[j])
      ensures forall i :: 0 <= i < |messages| && i != j ==> messages[i].View() == old(messages[i].View())
      ensures forall i :: 0 <= i < |services| && |messages| + i != j ==> services[i].View() == old(services[i].View())
      ensures forall i :: 0 <= i < |enums| && |messages| + |services| + i != j ==> enums[i].View() == old(enums[i].View())
    {
      var ps := Parts();
      forall i | 0 <= i < |messages| && i != j
        ensures messages[i].View() == old(messages[i].View())
      {
        assert ps[i] !! ps[j];
      }
      forall i | 0 <= i < |services| && |messages| + i != j
        ensures services[i].View() == old(services[i].View())
      {
        assert ps[|messages| + i] !! ps[j];
      }
      forall i | 0 <= i < |enums| && |messages| + |services| + i != j
        ensures enums[i].View() == old(enums[i].View())
      {
        assert ps[|messages| + |services| + i] !! ps[j];
      }
    }

    /** `File.add_description`: the result is the exception raised, if any,
        and then nothing has changed. */
    method AddDescription(d: string, path: seq<int>) returns (raised: Option<Doc.PathError>)
      requires Valid()
      modifies Repr
      ensures match Doc.FileAddDescription(old(View()), d, path)
        case Ok(f) => raised.None? && View() == f
        case Err(e) => raised == Some(e) && unchanged(Repr)
    {
      ghost var v0 := View();
      raised := None;
      if |path| < 2 {
        return;
      }
      var tag, index, rest := path[0], path[1], path[2..];
      if tag == FILE_MESSAGE_TYPE {
        var k := PyIndex(index, |messages|);
        if k.None? {
          return Some(Doc.IndexError(index));
        }
        raised := DescribeMessage(k.value, d, rest);
      } else if tag == FILE_SERVICE {
        var k := PyIndex(index, |services|);
        if k.None? {
          return Some(Doc.IndexError(index));
        }
        raised := DescribeService(k.value, d, rest);
      } else if tag == FILE_ENUM_TYPE {
        var k := PyIndex(index, |enums|);
        if k.None? {
          return Some(Doc.IndexError(index));
        }
        raised := DescribeEnum(k.value, d, rest);
      }
    }

    /** `self.messages[k].add_description(d, rest)`. */
    method DescribeMessage(k: nat, d: string, rest: seq<int>) returns (raised: Option<Doc.PathError>)
      requires Valid() && k < |messages|
      modifies Repr
      ensures |old(View()).messages| == |messages|
      ensures match Doc.MessageAddDescription(old(View()).messages[k], d, rest)
        case Ok(m) => raised.None? && View() == old(View()).(messages := old(View()).messages[k := m])
        case Err(e) => raised == Some(e) && unchanged(Repr)
    {
      ghost var v0 := View();
      var m := messages[k];
      assert Parts()[k] == m.Repr;
      raised := m.AddDescription(d, rest);
      OthersUnchanged(k);
      if raised.None? {
        assert View().messages == v0.messages[k := m.View()];
        assert View().services == v0.services;
        assert View().enums == v0.enums;
      }
    }

    /** `self.services[k].add_description(d, rest)`. */
    method DescribeService(k: nat, d: string, rest: seq<int>) returns (raised: Option<Doc.PathError>)
      requires Valid() && k < |services|
      modifies Repr
      ensures |old(View()).services| == |services|
      ensures match Doc.ServiceAddDescription(old(View()).services[k], d, rest)
        case Ok(sv) => raised.None? && View() == old(View()).(services := old(View()).services[k := sv])
        case Err(e) => raised == Some(e) && unchanged(Repr)
    {
      ghost var v0 := View();
      var sv := services[k];
      var j := |messages| + k;
      assert Parts()[j] == sv.Repr;
      raised := sv.AddDescription(d, rest);
      OthersUnchanged(j);
      if raised.None? {
        assert View().services == v0.services[k := sv.View()];
        assert View().messages == v0.messages;
        assert View().enums == v0.enums;
      }
    }

    /** `self.enums[k].add_description(d, rest)`. */
    method DescribeEnum(k: nat, d: string, rest: seq<int>) returns (raised: Option<Doc.PathError>)
      requires Valid() && k < |enums|
      modifies Repr
      ensures |old(View()).enums| == |enums|
      ensures match Doc.EnumAddDescription(old(View()).enums[k], d, rest)
        case Ok(e) => raised.None? && View() == old(View()).(enums := old(View()).enums[k := e])
        case Err(e) => raised == Some(e) && unchanged(Repr)
    {
      ghost var v0 := View();
      var e := enums[k];
      var j := |messages| + |services| + k;
      assert Parts()[j] == e.Repr;
      raised := e.AddDescription(d, rest);
      OthersUnchanged(j);
      if raised.None? {
        assert View().enums == v0.enums[k := e.View()];
        assert View().messages == v0.messages;
        assert View().services == v0.services;
      }
    }
  }

  // ---------------------------------------------------------------------
  // state of the builder while it runs

  /** The views of built messages that are not yet part of a parent. */
  ghost function MessagesView(ms: seq<Message>): (r: seq<Doc.Message>)
    requires forall i :: 0 <= i < |ms| ==> ms[i].Valid()
    reads set i, o | 0 <= i < |ms| && o in ms[i].Repr :: o
    ensures |r| == |ms|
  {
    seq(|ms|, i requires 0 <= i < |ms| && ms[i].Valid() reads set j, o | 0 <= j < |ms| && o in ms[j].Repr :: o => ms[i].View())
  }

  lemma MessagesViewAppend(ms: seq<Message>, m: Message)
    requires forall i :: 0 <= i < |ms| ==> ms[i].Valid()
    requires m.Valid()
    ensures MessagesView(ms + [m]) == MessagesView(ms) + [m.View()]
  {
    var ms' := ms + [m];
    assert forall i :: 0 <= i < |ms| ==> ms'[i] == ms[i];
  }

  ghost function EnumsView(es: seq<ProtoEnum>): (r: seq<Doc.Enum>)
    requires forall i :: 0 <= i < |es| ==> es[i].Valid()
    reads set i, o | 0 <= i < |es| && o in es[i].Repr :: o
    ensures |r| == |es|
  {
    seq(|es|, i requires 0 <= i < |es| && es[i].Valid() reads set j, o | 0 <= j < |es| && o in es[j].Repr :: o => es[i].View())
  }

  ghost function GroupsView(gs: seq<OneOfGroup>): (r: seq<Doc.OneOf>)
    requires forall i :: 0 <= i < |gs| ==> gs[i].Valid()
    reads set j, o | 0 <= j < |gs| && o in gs[j].Repr :: o
    ensures |r| == |gs|
  {
    seq(|gs|, i requires 0 <= i < |gs| && gs[i].Valid() reads set j, o | 0 <= j < |gs| && o in gs[j].Repr :: o => gs[i].View())
  }

  ghost function MessageParts(ms: seq<Message>): (r: seq<set<object>>)
    ensures |r| == |ms| && forall i :: 0 <= i < |ms| ==> r[i] == ms[i].Repr
  {
    seq(|ms|, i requires 0 <= i < |ms| => ms[i].Repr)
  }

  ghost function EnumParts(es: seq<ProtoEnum>): (r: seq<set<object>>)
    ensures |r| == |es| && forall i :: 0 <= i < |es| ==> r[i] == es[i].Repr
  {
    seq(|es|, i requires 0 <= i < |es| => es[i].Repr)
  }

  lemma PartsSplit(direct: seq<MessageField>, groups: seq<OneOfGroup>, messages: seq<Message>, enums: seq<ProtoEnum>)
    ensures PartsOf(direct, groups, messages, enums)
      == PartsOf(direct, groups, [], []) + MessageParts(messages) + EnumParts(enums)
  {
  }

  /** Every footprint in `ss` lies inside `fp`. */
  ghost predicate Within(ss: seq<set<object>>, fp: set<object>) {
    forall i :: 0 <= i < |ss| ==> ss[i] <= fp
  }

  lemma UnionWithin(ss: seq<set<object>>, fp: set<object>)
    requires Within(ss, fp)
    ensures Union(ss) <= fp
  {
  }

  lemma WithinSplit(direct: seq<MessageField>, groups: seq<OneOfGroup>, nested: seq<Message>, enums: seq<ProtoEnum>,
                    ofp: set<object>, cfp: set<object>)
    requires Within(PartsOf(direct, groups, [], []), ofp) && Within(MessageParts(nested) + EnumParts(enums), cfp)
    ensures Within(PartsOf(direct, groups, nested, enums), ofp + cfp)
  {
    var op, mp, ep := PartsOf(direct, groups, [], []), MessageParts(nested), EnumParts(enums);
    var all := PartsOf(direct, groups, nested, enums);
    var n := |direct| + |groups|;
    forall i | 0 <= i < |all|
      ensures all[i] <= ofp + cfp
    {
      if i < |direct| {
        assert all[i] == op[i];
      } else if i < n {
        assert all[i] == op[i];
      } else if i < n + |nested| {
        assert all[i] == (mp + ep)[i - n];
      } else {
        assert all[i] == (mp + ep)[i - n];
      }
    }
  }

  /** Two families that are each disjoint and lie inside disjoint sets form
      a disjoint family. */
  lemma DisjointConcat(a: seq<set<object>>, b: seq<set<object>>, fa: set<object>, fb: set<object>)
    requires Disjoint(a) && Disjoint(b) && Within(a, fa) && Within(b, fb) && fa !! fb
    ensures Disjoint(a + b) && Within(a + b, fa + fb)
  {
    forall i, j | 0 <= i < |a| && 0 <= j < |b|
      ensures a[i] !! b[j]
    {
      assert a[i] <= fa && b[j] <= fb;
    }
  }

  /** The footprints of the fields and the oneof groups of a message under
      construction lie among its field objects and group objects. */
  lemma OwnPartsWithin(direct: seq<MessageField>, grouped: seq<seq<MessageField>>, groups: seq<OneOfGroup>)
    requires |groups| == |grouped|
    requires forall k :: 0 <= k < |groups| ==> groups[k].Valid() && groups[k].fields == grouped[k]
    ensures Within(PartsOf(direct, groups, [], []),
      (set i | 0 <= i < |direct| :: direct[i] as object) + GroupedObjects(grouped) + (set k | 0 <= k < |groups| :: groups[k] as object))
  {
    var ps := PartsOf(direct, groups, [], []);
    var fp := (set i | 0 <= i < |direct| :: direct[i] as object) + GroupedObjects(grouped) + (set k | 0 <= k < |groups| :: groups[k] as object);
    forall j | 0 <= j < |ps|
      ensures ps[j] <= fp
    {
      if j >= |direct| {
        var k := j - |direct|;
        assert ps[j] == groups[k].Repr;
        forall o | o in groups[k].Repr
          ensures o in fp
        {
          if o != groups[k] {
            var i :| 0 <= i < |grouped[k]| && o == grouped[k][i];
          }
        }
      }
    }
  }

  method MakeEnumObjects(eds: seq<EnumDescriptor>) returns (es: seq<ProtoEnum>, ghost fp: set<object>)
    ensures |es| == |eds| && fresh(fp)
    ensures forall j :: 0 <= j < |es| ==> es[j].Valid()
    ensures Within(EnumParts(es), fp)
    ensures Disjoint(EnumParts(es))
    ensures EnumsView(es) == Build.MakeEnums(eds)
  {
    es := [];
    fp := {};
    for i := 0 to |eds|
      invariant |es| == i && fresh(fp)
      invariant forall j :: 0 <= j < i ==> es[j].Valid() && es[j].Repr <= fp
      invariant Disjoint(EnumParts(es))
      invariant EnumsView(es) == Build.MakeEnums(eds[..i])
    {
      var e := ProtoEnum.MakeEnum(eds[i]);
      DisjointAppend(EnumParts(es), e.Repr);
      assert EnumParts(es + [e]) == EnumParts(es) + [e.Repr];
      assert EnumsView(es + [e]) == EnumsView(es) + [e.View()];
      assert Build.MakeEnums(eds[..i + 1]) == Build.MakeEnums(eds[..i]) + [Build.MakeEnum(eds[i])];
      es := es + [e];
      fp := fp + e.Repr;
    }
    assert eds[..|eds|] == eds;
  }

  ghost function GroupedObjects(grouped: seq<seq<MessageField>>): set<object> {
    set k, i | 0 <= k < |grouped| && 0 <= i < |grouped[k]| :: grouped[k][i]
  }

  lemma GroupedObjectsUpdate(grouped: seq<seq<MessageField>>, k: nat, mf: MessageField)
    requires k < |grouped|
    ensures GroupedObjects(grouped[k := grouped[k] + [mf]]) <= GroupedObjects(grouped) + {mf}
  {
    var g' := grouped[k := grouped[k] + [mf]];
    forall o | o in GroupedObjects(g')
      ensures o in GroupedObjects(grouped) + {mf}
    {
      var k', i :| 0 <= k' < |g'| && 0 <= i < |g'[k']| && o == g'[k'][i];
      if k' != k || i < |grouped[k]| {
        assert o == grouped[k'][i];
      }
    }
  }

  /** Appending a new field object to the direct list. */
  lemma DirectAppend(direct: seq<MessageField>, grouped: seq<seq<MessageField>>, mf: MessageField)
    requires Separate(direct, grouped) && mf !in direct && mf !in GroupedObjects(grouped)
    ensures Separate(direct + [mf], grouped)
    ensures FieldViews(direct + [mf]) == FieldViews(direct) + [mf.View()]
  {
  }

  /** Appending a new field object to the list of group `k`. */
  lemma GroupedAppend(direct: seq<MessageField>, grouped: seq<seq<MessageField>>, k: nat, mf: MessageField)
    requires k < |grouped| && Separate(direct, grouped) && mf !in direct && mf !in GroupedObjects(grouped)
    ensures Separate(direct, grouped[k := grouped[k] + [mf]])
    ensures GroupedObjects(grouped[k := grouped[k] + [mf]]) <= GroupedObjects(grouped) + {mf}
    ensures GroupedViews(grouped[k := grouped[k] + [mf]]) == GroupedViews(grouped)[k := GroupedViews(grouped)[k] + [mf.View()]]
  {
    var g' := grouped[k := grouped[k] + [mf]];
    assert FieldViews(grouped[k] + [mf]) == FieldViews(grouped[k]) + [mf.View()];
    GroupedObjectsUpdate(grouped, k, mf);
    forall k', i | 0 <= k' < |grouped| && 0 <= i < |grouped[k']|
      ensures grouped[k'][i] != mf
    {
      assert grouped[k'][i] in GroupedObjects(grouped);
    }
  }

  ghost function GroupedViews(grouped: seq<seq<MessageField>>): (r: seq<seq<Doc.Field>>)
    reads GroupedObjects(grouped)
    ensures |r| == |grouped|
  {
    seq(|grouped|, k requires 0 <= k < |grouped| reads GroupedObjects(grouped) => FieldViews(grouped[k]))
  }

  /** No field object occurs twice across the direct list and the group lists. */
  ghost predicate Separate(direct: seq<MessageField>, grouped: seq<seq<MessageField>>) {
    NoDup(direct)
    && (forall k :: 0 <= k < |grouped| ==> NoDup(grouped[k]))
    && (forall k, i, j :: 0 <= k < |grouped| && 0 <= i < |grouped[k]| && 0 <= j < |direct| ==> grouped[k][i] != direct[j])
    && (forall k, k', i, j :: 0 <= k < |grouped| && 0 <= k' < |grouped| && k != k' && 0 <= i < |grouped[k]| && 0 <= j < |grouped[k']|
          ==> grouped[k][i] != grouped[k'][j])
  }

  lemma GroupsDisjoint(direct: seq<MessageField>, grouped: seq<seq<MessageField>>, groups: seq<OneOfGroup>)
    requires Separate(direct, grouped) && |groups| == |grouped| && NoDup(groups)
    requires forall k :: 0 <= k < |groups| ==> groups[k].Valid() && groups[k].fields == grouped[k]
    ensures Disjoint(PartsOf(direct, groups, [], []))
  {
    var ps := PartsOf(direct, groups, [], []);
    forall a, b | 0 <= a < |ps| && 0 <= b < |ps| && a != b
      ensures ps[a] !! ps[b]
    {
      if a < |direct| && b < |direct| {
      } else if a < |direct| {
        assert ps[b] == groups[b - |direct|].Repr;
      } else if b < |direct| {
        assert ps[a] == groups[a - |direct|].Repr;
      } else {
        assert ps[a] == groups[a - |direct|].Repr;
        assert ps[b] == groups[b - |direct|].Repr;
      }
    }
  }

  // ---------------------------------------------------------------------
  // build_files

  ghost function ServicesView(ss: seq<Service>): (r: seq<Doc.Service>)
    requires forall i :: 0 <= i < |ss| ==> ss[i].Valid()
    reads set i, o | 0 <= i < |ss| && o in ss[i].Repr :: o
    ensures |r| == |ss|
  {
    seq(|ss|, i requires 0 <= i < |ss| && ss[i].Valid() reads set j, o | 0 <= j < |ss| && o in ss[j].Repr :: o => ss[i].View())
  }

  ghost function ServiceParts(ss: seq<Service>): (r: seq<set<object>>)
    ensures |r| == |ss| && forall i :: 0 <= i < |ss| ==> r[i] == ss[i].Repr
  {
    seq(|ss|, i requires 0 <= i < |ss| => ss[i].Repr)
  }

  ghost function FilesView(fs: seq<File>): (r: seq<Doc.File>)
    requires forall i :: 0 <= i < |fs| ==> fs[i].Valid()
    reads set i, o | 0 <= i < |fs| && o in fs[i].Repr :: o
    ensures |r| == |fs|
  {
    seq(|fs|, i requires 0 <= i < |fs| && fs[i].Valid() reads set j, o | 0 <= j < |fs| && o in fs[j].Repr :: o => fs[i].View())
  }

  ghost function FileParts(fs: seq<File>): (r: seq<set<object>>)
    ensures |r| == |fs| && forall i :: 0 <= i < |fs| ==> r[i] == fs[i].Repr
  {
    seq(|fs|, i requires 0 <= i < |fs| => fs[i].Repr)
  }

  lemma FilePartsSplit(messages: seq<Message>, services: seq<Service>, enums: seq<ProtoEnum>)
    ensures FilePartsOf(messages, services, enums) == MessageParts(messages) + ServiceParts(services) + EnumParts(enums)
  {
  }

  /** The top-level messages of one proto_file, built without a prefix. */
  method MakeMessageObjects(mds: seq<MessageDescriptor>)
    returns (r: Result<seq<Message>, Build.BuildError>, ghost fp: set<object>)
    ensures fresh(fp)
    ensures match Build.MakeMessages(mds)
      case Ok(v) =>
        r.Ok? && (forall j :: 0 <= j < |r.value| ==> r.value[j].Valid())
        && Within(MessageParts(r.value), fp) && Disjoint(MessageParts(r.value)) && MessagesView(r.value) == v
      case Err(e) => r == Err(e)
  {
    var ms: seq<Message> := [];
    fp := {};
    assert mds[..0] == [];
    for i := 0 to |mds|
      invariant |ms| == i && fresh(fp)
      invariant forall j :: 0 <= j < i ==> ms[j].Valid() && ms[j].Repr <= fp
      invariant Disjoint(MessageParts(ms))
      invariant Build.MakeMessages(mds[..i]) == Ok(MessagesView(ms))
    {
      ghost var mv := MessagesView(ms);
      assert mds[..i + 1][..i] == mds[..i];
      var m := Message.MakeMessage(mds[i]);
      if m.Err? {
        Build.MessagesStop(mds, i + 1);
        return Err(m.error), fp;
      }
      assert MessagesView(ms) == mv;
      assert fp !! m.value.Repr;
      DisjointAppend(MessageParts(ms), m.value.Repr);
      assert MessageParts(ms + [m.value]) == MessageParts(ms) + [m.value.Repr];
      MessagesViewAppend(ms, m.value);
      ms := ms + [m.value];
      fp := fp + m.value.Repr;
    }
    assert mds[..|mds|] == mds;
    return Ok(ms), fp;
  }

  /** The inner loop of `build_files`: a Service holding one RPC per method. */
  method MakeServiceObject(sd: ServiceDescriptor) returns (s: Service)
    ensures fresh(s.Repr) && s.Valid() && s.View() == Build.MakeService(sd)
  {
    var rs: seq<RPC> := [];
    for i := 0 to |sd.methods|
      invariant |rs| == i && NoDup(rs)
      invariant forall j :: 0 <= j < i ==> fresh(rs[j]) && rs[j].View() == Build.MakeRpc(sd.methods[j])
    {
      var md := sd.methods[i];
      var rpc := new RPC(md.name, md.inputType, md.outputType);
      rs := rs + [rpc];
    }
    s := new Service(sd.name, rs);
    assert RpcViews(rs) == Build.MakeService(sd).rpcs;
  }

  /** The services of one proto_file. */
  method MakeServiceObjects(sds: seq<ServiceDescriptor>) returns (ss: seq<Service>, ghost fp: set<object>)
    ensures |ss| == |sds| && fresh(fp)
    ensures forall j :: 0 <= j < |ss| ==> ss[j].Valid()
    ensures Within(ServiceParts(ss), fp) && Disjoint(ServiceParts(ss))
    ensures ServicesView(ss) == Build.MakeServices(sds)
  {
    ss := [];
    fp := {};
    for i := 0 to |sds|
      invariant |ss| == i && fresh(fp)
      invariant forall j :: 0 <= j < i ==> ss[j].Valid() && ss[j].Repr <= fp
      invariant Disjoint(ServiceParts(ss))
      invariant ServicesView(ss) == Build.MakeServices(sds[..i])
    {
      ghost var sv := ServicesView(ss);
      var s := MakeServiceObject(sds[i]);
      assert ServicesView(ss) == sv;
      DisjointAppend(ServiceParts(ss), s.Repr);
      assert ServiceParts(ss + [s]) == ServiceParts(ss) + [s.Repr];
      assert ServicesView(ss + [s]) == ServicesView(ss) + [s.View()];
      assert Build.MakeServices(sds[..i + 1]) == Build.MakeServices(sds[..i]) + [Build.MakeService(sds[i])];
      ss := ss + [s];
      fp := fp + s.Repr;
    }
    assert sds[..|sds|] == sds;
  }

  /** Wraps already built, pairwise disjoint parts into a new File. */
  method AssembleFile(name: string, ms: seq<Message>, ss: seq<Service>, es: seq<ProtoEnum>,
                      ghost mfp: set<object>, ghost sfp: set<object>, ghost efp: set<object>)
    returns (f: File)
    requires forall i :: 0 <= i < |ms| ==> ms[i].Valid()
    requires forall i :: 0 <= i < |ss| ==> ss[i].Valid()
    requires forall i :: 0 <= i < |es| ==> es[i].Valid()
    requires Disjoint(MessageParts(ms)) && Within(MessageParts(ms), mfp)
    requires Disjoint(ServiceParts(ss)) && Within(ServiceParts(ss), sfp)
    requires Disjoint(EnumParts(es)) && Within(EnumParts(es), efp)
    requires mfp !! sfp && mfp !! efp && sfp !! efp
    ensures f.Valid() && fresh(f) && f.Repr <= {f} + mfp + sfp + efp
    ensures f.View() == Doc.File(name, MessagesView(ms), ServicesView(ss), EnumsView(es))
  {
    DisjointConcat(MessageParts(ms), ServiceParts(ss), mfp, sfp);
    DisjointConcat(MessageParts(ms) + ServiceParts(ss), EnumParts(es), mfp + sfp, efp);
    FilePartsSplit(ms, ss, es);
    UnionWithin(FilePartsOf(ms, ss, es), mfp + sfp + efp);
    f := new File(name, ms, ss, es);
  }

  /** One iteration of `build_files`: the File of one proto_file, with its
      messages, then its enums, then its services. */
  method BuildFile(fd: FileDescriptor) returns (r: Result<File, Build.BuildError>)
    ensures match Build.BuildFile(fd)
      case Ok(v) => r.Ok? && r.value.Valid() && fresh(r.value.Repr) && r.value.View() == v
      case Err(e) => r == Err(e)
  {
    ghost var mfp, efp, sfp: set<object>;
    var ms;
    ms, mfp := MakeMessageObjects(fd.messageTypes);
    if ms.Err? {
      return Err(ms.error);
    }
    ghost var mv := MessagesView(ms.value);
    var es;
    es, efp := MakeEnumObjects(fd.enumTypes);
    assert MessagesView(ms.value) == mv;
    ghost var ev := EnumsView(es);
    var ss;
    ss, sfp := MakeServiceObjects(fd.services);
    assert MessagesView(ms.value) == mv;
    assert EnumsView(es) == ev;
    ghost var sv := ServicesView(ss);
    var f := AssembleFile(fd.name, ms.value, ss, es, mfp, sfp, efp);
    assert MessagesView(ms.value) == mv;
    assert EnumsView(es) == ev;
    assert ServicesView(ss) == sv;
    assert f.View() == Doc.File(fd.name, mv, sv, ev);
    assert Build.BuildFile(fd) == Ok(f.View());
    assert fresh(mfp + sfp + efp);
    return Ok(f);
  }

  /** `build_files`: one File per proto_file of the request, in order, with
      pairwise disjoint footprints. */
  method BuildFiles(req: Request) returns (r: Result<seq<File>, Build.BuildError>)
    ensures match Build.BuildFiles(req.protoFiles)
      case Ok(v) =>
        r.Ok? && (forall j :: 0 <= j < |r.value| ==> r.value[j].Valid() && fresh(r.value[j].Repr))
        && Disjoint(FileParts(r.value)) && FilesView(r.value) == v
      case Err(e) => r == Err(e)
  {
    var fds := req.protoFiles;
    var files: seq<File> := [];
    ghost var fp: set<object> := {};
    assert fds[..0] == [];
    for i := 0 to |fds|
      invariant |files| == i && fresh(fp)
      invariant forall j :: 0 <= j < i ==> files[j].Valid() && files[j].Repr <= fp
      invariant Disjoint(FileParts(files))
      invariant Build.BuildFiles(fds[..i]) == Ok(FilesView(files))
    {
      ghost var v := FilesView(files);
      assert fds[..i + 1][..i] == fds[..i];
      var f := BuildFile(fds[i]);
      if f.Err? {
        Build.FilesStop(fds, i + 1);
        return Err(f.error);
      }
      assert FilesView(files) == v;
      assert fp !! f.value.Repr;
      DisjointAppend(FileParts(files), f.value.Repr);
      assert FileParts(files + [f.value]) == FileParts(files) + [f.value.Repr];
      assert FilesView(files + [f.value]) == FilesView(files) + [f.value.View()];
      files := files + [f.value];
      fp := fp + f.value.Repr;
    }
    assert fds[..|fds|] == fds;
    return Ok(files);
  }
}
