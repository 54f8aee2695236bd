/** The document tree of auto_proto_doc/model.py as values, and the comment
    attacher (`add_description` of every node kind) as functions on those
    values. The classes of module Model are specified by these functions. */
module Doc {
  import opened Util
  import opened Descriptor

  datatype Field = Field(name: string, typ: string, isPrimitive: bool, repeated: bool, description: string)

  datatype OneOf = OneOf(name: string, fields: seq<Field>, description: string)

  datatype EnumValue = EnumValue(name: string, description: string)

  datatype Enum = Enum(name: string, values: seq<EnumValue>, description: string)

  datatype Message = Message(
    name: string,
    fields: seq<Field>,
    messages: seq<Message>,
    oneofGroups: seq<OneOf>,
    enums: seq<Enum>,
    description: string)

  datatype Rpc = Rpc(name: string, inputType: string, outputType: string, description: string)

  datatype Service = Service(name: string, rpcs: seq<Rpc>, description: string)

  /** A File has no description of its own. */
  datatype File = File(name: string, messages: seq<Message>, services: seq<Service>, enums: seq<Enum>)

  /** What `add_description` raises on a path it cannot follow: IndexError for
      a list index out of range, AttributeError when `get_field` finds no
      field and returns None. */
  datatype PathError = IndexError(index: int) | NoField(index: int)

  // ---------------------------------------------------------------------
  // get_field: the fields of a message followed by the fields of each oneof
  // group, group by group.

  /** Where the `fn`-th field of that walk is stored. */
  datatype Slot = Direct(i: nat) | InGroup(g: nat, i: nat)

  function Sum(sizes: seq<nat>): nat {
    if sizes == [] then 0 else sizes[0] + Sum(sizes[1..])
  }

  /** The slot of position `n` of the walk over groups numbered from `g`. */
  function GroupSlot(sizes: seq<nat>, n: int, g: nat): Option<Slot>
    decreases |sizes|
  {
    if sizes == [] || n < 0 then None
    else if n < sizes[0] then Some(InGroup(g, n))
    else GroupSlot(sizes[1..], n - sizes[0], g + 1)
  }

  /** The slot that `get_field(fn)` returns, for a message with `direct`
      direct fields and oneof groups of the given sizes. */
  function FieldSlot(direct: nat, sizes: seq<nat>, fn: int): Option<Slot> {
    if fn < 0 then None
    else if fn < direct then Some(Direct(fn))
    else GroupSlot(sizes, fn - direct, 0)
  }

  lemma {:induction false} GroupSlotInRange(sizes: seq<nat>, n: int, g: nat)
    ensures GroupSlot(sizes, n, g).Some? <==> 0 <= n < Sum(sizes)
    ensures GroupSlot(sizes, n, g).Some? ==>
      var s := GroupSlot(sizes, n, g).value;
      s.InGroup? && g <= s.g < g + |sizes| && s.i < sizes[s.g - g]
      && n == Sum(sizes[..s.g - g]) + s.i
    decreases |sizes|
  {
    if sizes != [] && 0 <= n && n >= sizes[0] {
      GroupSlotInRange(sizes[1..], n - sizes[0], g + 1);
      if GroupSlot(sizes, n, g).Some? {
        var s := GroupSlot(sizes, n, g).value;
        var k := s.g - g;
        assert sizes[1..][..k - 1] == sizes[1..k];
        assert sizes[..k][1..] == sizes[1..k];
      }
    } else if sizes != [] && 0 <= n {
      assert sizes[..0] == [];
    }
  }

  /** The slot stored for position `fn` is in range, and distinct positions
      have distinct slots. */
  lemma FieldSlotInRange(direct: nat, sizes: seq<nat>, fn: int)
    ensures FieldSlot(direct, sizes, fn).Some? <==> 0 <= fn < direct + Sum(sizes)
    ensures FieldSlot(direct, sizes, fn).Some? ==>
      var s := FieldSlot(direct, sizes, fn).value;
      (s.Direct? ==> s.i == fn && fn < direct)
      && (s.InGroup? ==> s.g < |sizes| && s.i < sizes[s.g] && fn == direct + Sum(sizes[..s.g]) + s.i)
  {
    if fn >= direct {
      GroupSlotInRange(sizes, fn - direct, 0);
    }
  }

  function Sizes(gs: seq<OneOf>): (r: seq<nat>)
    ensures |r| == |gs| && forall k :: 0 <= k < |gs| ==> r[k] == |gs[k].fields|
  {
    seq(|gs|, k requires 0 <= k < |gs| => |gs[k].fields|)
  }

  function GroupFields(gs: seq<OneOf>): seq<Field> {
    if gs == [] then [] else gs[0].fields + GroupFields(gs[1..])
  }

  /** The sequence that `get_field` walks: the direct fields, then every
      oneof group's fields in group order. */
  function AllFields(m: Message): seq<Field> {
    m.fields + GroupFields(m.oneofGroups)
  }

  function FieldAt(m: Message, s: Slot): Field
    requires SlotValid(m, s)
  {
    match s
    case Direct(i) => m.fields[i]
    case InGroup(g, i) => m.oneofGroups[g].fields[i]
  }

  predicate SlotValid(m: Message, s: Slot) {
    match s
    case Direct(i) => i < |m.fields|
    case InGroup(g, i) => g < |m.oneofGroups| && i < |m.oneofGroups[g].fields|
  }

  lemma {:induction false} GroupFieldsAt(gs: seq<OneOf>, g: nat, i: nat)
    requires g < |gs| && i < |gs[g].fields|
    ensures Sum(Sizes(gs)) == |GroupFields(gs)|
    ensures Sum(Sizes(gs)[..g]) + i < |GroupFields(gs)|
    ensures GroupFields(gs)[Sum(Sizes(gs)[..g]) + i] == gs[g].fields[i]
  {
    assert Sizes(gs)[1..] == Sizes(gs[1..]);
    if g == 0 {
      assert Sizes(gs)[..0] == [];
      GroupFieldsLength(gs[1..]);
    } else {
      GroupFieldsAt(gs[1..], g - 1, i);
      assert Sizes(gs)[..g][1..] == Sizes(gs[1..])[..g - 1];
    }
  }

  lemma {:induction false} GroupFieldsLength(gs: seq<OneOf>)
    ensures Sum(Sizes(gs)) == |GroupFields(gs)|
  {
    if gs != [] {
      assert Sizes(gs)[1..] == Sizes(gs[1..]);
      GroupFieldsLength(gs[1..]);
    }
  }

  /** `Message.get_field(fn)`: element `fn` of the walk over the direct
      fields and then the oneof groups' fields, or None when `fn` is negative
      or at or beyond the end of that walk. */
  function GetField(m: Message, fn: int): (r: Option<Field>)
    ensures r == if 0 <= fn < |AllFields(m)| then Some(AllFields(m)[fn]) else None
  {
    FieldSlotInRange(|m.fields|, Sizes(m.oneofGroups), fn);
    GroupFieldsLength(m.oneofGroups);
    match FieldSlot(|m.fields|, Sizes(m.oneofGroups), fn)
    case None => None
    case Some(s) =>
      if s.InGroup? then GroupFieldsAt(m.oneofGroups, s.g, s.i); Some(FieldAt(m, s))
      else Some(FieldAt(m, s))
  }

  /** The message with the field in slot `s` replaced by `f`. */
  function SetFieldAt(m: Message, s: Slot, f: Field): Message
    requires SlotValid(m, s)
  {
    match s
    case Direct(i) => m.(fields := m.fields[i := f])
    case InGroup(g, i) =>
      m.(oneofGroups := m.oneofGroups[g := m.oneofGroups[g].(fields := m.oneofGroups[g].fields[i := f])])
  }

  lemma {:induction false} GroupFieldsUpdate(gs: seq<OneOf>, g: nat, i: nat, f: Field)
    requires g < |gs| && i < |gs[g].fields|
    ensures Sizes(gs[g := gs[g].(fields := gs[g].fields[i := f])]) == Sizes(gs)
    ensures Sum(Sizes(gs)[..g]) + i < |GroupFields(gs)|
    ensures GroupFields(gs[g := gs[g].(fields := gs[g].fields[i := f])])
         == GroupFields(gs)[Sum(Sizes(gs)[..g]) + i := f]
  {
    var gs' := gs[g := gs[g].(fields := gs[g].fields[i := f])];
    GroupFieldsAt(gs, g, i);
    assert Sizes(gs') == Sizes(gs);
    if g == 0 {
      assert Sizes(gs)[..0] == [];
      assert gs'[1..] == gs[1..];
    } else {
      GroupFieldsUpdate(gs[1..], g - 1, i, f);
      assert gs'[1..] == gs[1..][g - 1 := gs[1..][g - 1].(fields := gs[1..][g - 1].fields[i := f])];
      assert Sizes(gs)[1..] == Sizes(gs[1..]);
      assert Sizes(gs)[..g][1..] == Sizes(gs[1..])[..g - 1];
    }
  }

  /** Replacing the field in the slot of position `fn` replaces element `fn`
      of the `get_field` walk and nothing else. */
  lemma SetFieldAtWalk(m: Message, fn: int, f: Field)
    requires FieldSlot(|m.fields|, Sizes(m.oneofGroups), fn).Some?
    ensures var s := FieldSlot(|m.fields|, Sizes(m.oneofGroups), fn).value;
      SlotValid(m, s) && 0 <= fn < |AllFields(m)|
      && FieldAt(m, s) == AllFields(m)[fn]
      && |SetFieldAt(m, s, f).fields| == |m.fields|
      && Sizes(SetFieldAt(m, s, f).oneofGroups) == Sizes(m.oneofGroups)
      && AllFields(SetFieldAt(m, s, f)) == AllFields(m)[fn := f]
  {
    var s := FieldSlot(|m.fields|, Sizes(m.oneofGroups), fn).value;
    FieldSlotInRange(|m.fields|, Sizes(m.oneofGroups), fn);
    GroupFieldsLength(m.oneofGroups);
    if s.InGroup? {
      GroupFieldsAt(m.oneofGroups, s.g, s.i);
      GroupFieldsUpdate(m.oneofGroups, s.g, s.i, f);
    }
  }

  // ---------------------------------------------------------------------
  // add_description. A node consumes one (tag, index) pair per level; a path
  // with fewer than two elements left addresses the node itself.

  /** `MessageField.add_description`. */
  function FieldAddDescription(f: Field, d: string, path: seq<int>): Field {
    if |path| < 2 then f.(description := d) else f
  }

  /** `OneOfGroup.add_description`. */
  function OneOfAddDescription(o: OneOf, d: string, path: seq<int>): OneOf {
    if |path| < 2 then o.(description := d) else o
  }

  /** `ProtoEnumValue.add_description`. */
  function EnumValueAddDescription(v: EnumValue, d: string, path: seq<int>): EnumValue {
    if |path| < 2 then v.(description := d) else v
  }

  /** `RPC.add_description`. */
  function RpcAddDescription(r: Rpc, d: string, path: seq<int>): Rpc {
    if |path| < 2 then r.(description := d) else r
  }

  /** `ProtoEnum.add_description`. The value is handed the whole path, not
      `path[2:]`, so it never takes the description. */
  function EnumAddDescription(e: Enum, d: string, path: seq<int>): Result<Enum, PathError> {
    if |path| < 2 then Ok(e.(description := d))
    else if path[0] == ENUM_VALUE then
      match PyIndex(path[1], |e.values|)
      case None => Err(IndexError(path[1]))
      case Some(k) => Ok(e.(values := e.values[k := EnumValueAddDescription(e.values[k], d, path)]))
    else Ok(e)
  }

  /** `Service.add_description`: a short path is ignored. */
  function ServiceAddDescription(s: Service, d: string, path: seq<int>): Result<Service, PathError> {
    if |path| < 2 then Ok(s)
    else if path[0] == SERVICE_METHOD then
      match PyIndex(path[1], |s.rpcs|)
      case None => Err(IndexError(path[1]))
      case Some(k) => Ok(s.(rpcs := s.rpcs[k := RpcAddDescription(s.rpcs[k], d, path[2..])]))
    else Ok(s)
  }

  /** `Message.add_description`. */
  function MessageAddDescription(m: Message, d: string, path: seq<int>): Result<Message, PathError>
    decreases m
  {
    if |path| < 2 then Ok(m.(description := d))
    else
      var tag, index, rest := path[0], path[1], path[2..];
      if tag == MESSAGE_FIELD then
        FieldSlotInRange(|m.fields|, Sizes(m.oneofGroups), index);
        match FieldSlot(|m.fields|, Sizes(m.oneofGroups), index)
        case None => Err(NoField(index))
        case Some(s) => Ok(SetFieldAt(m, s, FieldAddDescription(FieldAt(m, s), d, rest)))
      else if tag == MESSAGE_NESTED_TYPE then
        match PyIndex(index, |m.messages|)
        case None => Err(IndexError(index))
        case Some(k) =>
          var sub :- MessageAddDescription(m.messages[k], d, rest);
          Ok(m.(messages := m.messages[k := sub]))
      else if tag == MESSAGE_ENUM_TYPE then
        match PyIndex(index, |m.enums|)
        case None => Err(IndexError(index))
        case Some(k) =>
          var e :- EnumAddDescription(m.enums[k], d, rest);
          Ok(m.(enums := m.enums[k := e]))
      else if tag == MESSAGE_ONEOF_DECL then
        match PyIndex(index, |m.oneofGroups|)
        case None => Err(IndexError(index))
        case Some(k) => Ok(m.(oneofGroups := m.oneofGroups[k := OneOfAddDescription(m.oneofGroups[k], d, rest)]))
      else Ok(m)
  }

  /** `File.add_description`: a short path is ignored. */
  function FileAddDescription(f: File, d: string, path: seq<int>): Result<File, PathError> {
    if |path| < 2 then Ok(f)
    else
      var tag, index, rest := path[0], path[1], path[2..];
      if tag == FILE_MESSAGE_TYPE then
        match PyIndex(index, |f.messages|)
        case None => Err(IndexError(index))
        case Some(k) =>
          var m :- MessageAddDescription(f.messages[k], d, rest);
          Ok(f.(messages := f.messages[k := m]))
      else if tag == FILE_SERVICE then
        match PyIndex(index, |f.services|)
        case None => Err(IndexError(index))
        case Some(k) =>
          var s :- ServiceAddDescription(f.services[k], d, rest);
          Ok(f.(services := f.services[k := s]))
      else if tag == FILE_ENUM_TYPE then
        match PyIndex(index, |f.enums|)
        case None => Err(IndexError(index))
        case Some(k) =>
          var e :- EnumAddDescription(f.enums[k], d, rest);
          Ok(f.(enums := f.enums[k := e]))
      else Ok(f)
  }

  // ---------------------------------------------------------------------
  // descendants

  /** `Message.descendants` for a list of messages: each message, then its own
      descendants, in order. */
  function DescendantsOf(ms: seq<Message>): seq<Message>
    decreases ms
  {
    if ms == [] then [] else [ms[0]] + DescendantsOf(ms[0].messages) + DescendantsOf(ms[1..])
  }

  /** `Message.descendants`: every message nested in `m`, at any depth, in
      pre-order. */
  function Descendants(m: Message): seq<Message> {
    DescendantsOf(m.messages)
  }
}
