/** Which node of a document tree a SourceCodeInfo path designates, and what
    `add_description` does to the tree in those terms: it writes the
    description of the one node the path designates, unless that node is a
    File, a Service or an enum value, and changes nothing else. */
module Addressing {
  import opened Util
  import opened Descriptor
  import opened Doc

  datatype Kind = FileNode | MessageNode | FieldNode | OneOfNode | EnumNode | ValueNode | ServiceNode | RpcNode

  /** A designated node: its address (the path's (tag, index) pairs with each
      index made non-negative), its kind and its current description. A File
      has no description; it reads as "". */
  datatype Located = Located(addr: seq<int>, kind: Kind, description: string)

  /** The nodes that `add_description` gives a description to. */
  predicate Writable(k: Kind) {
    k != FileNode && k != ServiceNode && k != ValueNode
  }

  function Under(tag: int, k: int, l: Option<Located>): Option<Located> {
    match l
    case None => None
    case Some(x) => Some(x.(addr := [tag, k] + x.addr))
  }

  function LocateField(f: Field, path: seq<int>): Option<Located> {
    if |path| < 2 then Some(Located([], FieldNode, f.description)) else None
  }

  function LocateOneOf(o: OneOf, path: seq<int>): Option<Located> {
    if |path| < 2 then Some(Located([], OneOfNode, o.description)) else None
  }

  function LocateValue(v: EnumValue, path: seq<int>): Option<Located> {
    if |path| < 2 then Some(Located([], ValueNode, v.description)) else None
  }

  function LocateRpc(r: Rpc, path: seq<int>): Option<Located> {
    if |path| < 2 then Some(Located([], RpcNode, r.description)) else None
  }

  /** Unlike `ProtoEnum.add_description`, an enum value is reached with the
      rest of the path after its (tag, index) pair, as descriptor.proto
      defines it. */
  function LocateEnum(e: Enum, path: seq<int>): Option<Located> {
    if |path| < 2 then Some(Located([], EnumNode, e.description))
    else if path[0] == ENUM_VALUE then
      match PyIndex(path[1], |e.values|)
      case None => None
      case Some(k) => Under(ENUM_VALUE, k, LocateValue(e.values[k], path[2..]))
    else None
  }

  function LocateService(s: Service, path: seq<int>): Option<Located> {
    if |path| < 2 then Some(Located([], ServiceNode, s.description))
    else if path[0] == SERVICE_METHOD then
      match PyIndex(path[1], |s.rpcs|)
      case None => None
      case Some(k) => Under(SERVICE_METHOD, k, LocateRpc(s.rpcs[k], path[2..]))
    else None
  }

  function LocateMessage(m: Message, path: seq<int>): Option<Located>
    decreases m
  {
    if |path| < 2 then Some(Located([], MessageNode, m.description))
    else
      var tag, index, rest := path[0], path[1], path[2..];
      if tag == MESSAGE_FIELD then
        match GetField(m, index)
        case None => None
        case Some(f) => Under(MESSAGE_FIELD, index, LocateField(f, rest))
      else if tag == MESSAGE_NESTED_TYPE then
        match PyIndex(index, |m.messages|)
        case None => None
        case Some(k) => Under(MESSAGE_NESTED_TYPE, k, LocateMessage(m.messages[k], rest))
      else if tag == MESSAGE_ENUM_TYPE then
        match PyIndex(index, |m.enums|)
        case None => None
        case Some(k) => Under(MESSAGE_ENUM_TYPE, k, LocateEnum(m.enums[k], rest))
      else if tag == MESSAGE_ONEOF_DECL then
        match PyIndex(index, |m.oneofGroups|)
        case None => None
        case Some(k) => Under(MESSAGE_ONEOF_DECL, k, LocateOneOf(m.oneofGroups[k], rest))
      else None
  }

  function LocateFile(f: File, path: seq<int>): Option<Located> {
    if |path| < 2 then Some(Located([], FileNode, ""))
    else
      var tag, index, rest := path[0], path[1], path[2..];
      if tag == FILE_MESSAGE_TYPE then
        match PyIndex(index, |f.messages|)
        case None => None
        case Some(k) => Under(FILE_MESSAGE_TYPE, k, LocateMessage(f.messages[k], rest))
      else if tag == FILE_SERVICE then
        match PyIndex(index, |f.services|)
        case None => None
        case Some(k) => Under(FILE_SERVICE, k, LocateService(f.services[k], rest))
      else if tag == FILE_ENUM_TYPE then
        match PyIndex(index, |f.enums|)
        case None => None
        case Some(k) => Under(FILE_ENUM_TYPE, k, LocateEnum(f.enums[k], rest))
      else None
  }

  /** What a node `l` looks like after writing `d` at the node `target`. */
  function After(l: Option<Located>, target: Option<Located>, d: string): Option<Located> {
    if l.Some? && target.Some? && l.value.addr == target.value.addr && Writable(target.value.kind)
    then Some(l.value.(description := d))
    else l
  }

  // ---------------------------------------------------------------------
  // How After meets Under.

  lemma AfterUnderSame(tag: int, k: int, a: Option<Located>, b: Option<Located>, d: string)
    ensures After(Under(tag, k, a), Under(tag, k, b), d) == Under(tag, k, After(a, b, d))
  {
    if a.Some? && b.Some? {
      assert ([tag, k] + a.value.addr == [tag, k] + b.value.addr) <==> a.value.addr == b.value.addr by {
        if [tag, k] + a.value.addr == [tag, k] + b.value.addr {
          assert a.value.addr == ([tag, k] + a.value.addr)[2..];
        }
      }
    }
  }

  lemma AfterUnderOther(tag: int, k: int, tag': int, k': int, a: Option<Located>, b: Option<Located>, d: string)
    requires tag != tag' || k != k'
    ensures After(Under(tag, k, a), Under(tag', k', b), d) == Under(tag, k, a)
  {
    if a.Some? && b.Some? {
      assert ([tag, k] + a.value.addr)[..2] == [tag, k];
      assert ([tag', k'] + b.value.addr)[..2] == [tag', k'];
    }
  }

  lemma AfterUnderSelf(tag: int, k: int, a: Option<Located>, target: Located, d: string)
    requires target.addr == []
    ensures After(Under(tag, k, a), Some(target), d) == Under(tag, k, a)
  {
  }

  lemma AfterSelfUnder(l: Located, tag: int, k: int, b: Option<Located>, d: string)
    requires l.addr == []
    ensures After(Some(l), Under(tag, k, b), d) == Some(l)
  {
  }

  // ---------------------------------------------------------------------
  // The lens property, node kind by node kind.

  lemma FieldLens(f: Field, d: string, p: seq<int>, q: seq<int>)
    ensures LocateField(FieldAddDescription(f, d, p), q) == After(LocateField(f, q), LocateField(f, p), d)
  {
  }

  lemma OneOfLens(o: OneOf, d: string, p: seq<int>, q: seq<int>)
    ensures LocateOneOf(OneOfAddDescription(o, d, p), q) == After(LocateOneOf(o, q), LocateOneOf(o, p), d)
  {
  }

  lemma RpcLens(r: Rpc, d: string, p: seq<int>, q: seq<int>)
    ensures LocateRpc(RpcAddDescription(r, d, p), q) == After(LocateRpc(r, q), LocateRpc(r, p), d)
  {
  }

  /** Only the enum's own description can change: the value a path reaches is
      handed the untrimmed path and keeps its description. */
  lemma {:induction false} EnumLens(e: Enum, d: string, p: seq<int>, q: seq<int>)
    requires EnumAddDescription(e, d, p).Ok?
    ensures LocateEnum(EnumAddDescription(e, d, p).value, q) == After(LocateEnum(e, q), LocateEnum(e, p), d)
  {
    var e' := EnumAddDescription(e, d, p).value;
    if |p| >= 2 {
      assert e' == e by {
        if p[0] == ENUM_VALUE {
          var k := PyIndex(p[1], |e.values|).value;
          assert e.values[k := e.values[k]] == e.values;
        }
      }
      if |q| < 2 {
        if p[0] == ENUM_VALUE {
          var k := PyIndex(p[1], |e.values|).value;
          AfterSelfUnder(Located([], EnumNode, e.description), ENUM_VALUE, k, LocateValue(e.values[k], p[2..]), d);
        }
      } else if p[0] == ENUM_VALUE && q[0] == ENUM_VALUE && PyIndex(q[1], |e.values|).Some? {
        var k := PyIndex(p[1], |e.values|).value;
        var j := PyIndex(q[1], |e.values|).value;
        var t := LocateValue(e.values[k], p[2..]);
        if t.Some? && j == k {
          assert !Writable(t.value.kind);
        } else if j == k {
          assert LocateEnum(e, p) == None;
        } else {
          AfterUnderOther(ENUM_VALUE, j, ENUM_VALUE, k, LocateValue(e.values[j], q[2..]), t, d);
        }
      }
    } else if |q| >= 2 && q[0] == ENUM_VALUE && PyIndex(q[1], |e.values|).Some? {
      var j := PyIndex(q[1], |e.values|).value;
      AfterUnderSelf(ENUM_VALUE, j, LocateValue(e.values[j], q[2..]), Located([], EnumNode, e.description), d);
    }
  }

  lemma {:induction false} ServiceLens(sv: Service, d: string, p: seq<int>, q: seq<int>)
    requires ServiceAddDescription(sv, d, p).Ok?
    ensures LocateService(ServiceAddDescription(sv, d, p).value, q) == After(LocateService(sv, q), LocateService(sv, p), d)
  {
    var sv' := ServiceAddDescription(sv, d, p).value;
    if |p| >= 2 && p[0] == SERVICE_METHOD {
      var k := PyIndex(p[1], |sv.rpcs|).value;
      var t := LocateRpc(sv.rpcs[k], p[2..]);
      if |q| < 2 {
        AfterSelfUnder(Located([], ServiceNode, sv.description), SERVICE_METHOD, k, t, d);
      } else if q[0] == SERVICE_METHOD && PyIndex(q[1], |sv.rpcs|).Some? {
        var j := PyIndex(q[1], |sv.rpcs|).value;
        if j == k {
          RpcLens(sv.rpcs[k], d, p[2..], q[2..]);
          AfterUnderSame(SERVICE_METHOD, k, LocateRpc(sv.rpcs[k], q[2..]), t, d);
        } else {
          AfterUnderOther(SERVICE_METHOD, j, SERVICE_METHOD, k, LocateRpc(sv.rpcs[j], q[2..]), t, d);
        }
      }
    }
  }

  /** A route that ends at the message itself. */
  lemma MessageLensSelf(m: Message, d: string, p: seq<int>, q: seq<int>)
    requires |p| < 2
    ensures LocateMessage(m.(description := d), q) == After(LocateMessage(m, q), LocateMessage(m, p), d)
  {
    var target := Located([], MessageNode, m.description);
    if |q| >= 2 {
      var tag, index, rest := q[0], q[1], q[2..];
      if tag == MESSAGE_FIELD {
        assert AllFields(m.(description := d)) == AllFields(m);
        if GetField(m, index).Some? {
          AfterUnderSelf(MESSAGE_FIELD, index, LocateField(GetField(m, index).value, rest), target, d);
        }
      } else if tag == MESSAGE_NESTED_TYPE && PyIndex(index, |m.messages|).Some? {
        var k := PyIndex(index, |m.messages|).value;
        AfterUnderSelf(tag, k, LocateMessage(m.messages[k], rest), target, d);
      } else if tag == MESSAGE_ENUM_TYPE && PyIndex(index, |m.enums|).Some? {
        var k := PyIndex(index, |m.enums|).value;
        AfterUnderSelf(tag, k, LocateEnum(m.enums[k], rest), target, d);
      } else if tag == MESSAGE_ONEOF_DECL && PyIndex(index, |m.oneofGroups|).Some? {
        var k := PyIndex(index, |m.oneofGroups|).value;
        AfterUnderSelf(tag, k, LocateOneOf(m.oneofGroups[k], rest), target, d);
      }
    }
  }

  /** A route through tag 2 to the field the `get_field` walk finds. */
  lemma MessageLensField(m: Message, d: string, p: seq<int>, q: seq<int>)
    requires |p| >= 2 && p[0] == MESSAGE_FIELD
    requires MessageAddDescription(m, d, p).Ok?
    ensures LocateMessage(MessageAddDescription(m, d, p).value, q) == After(LocateMessage(m, q), LocateMessage(m, p), d)
  {
    var fn := p[1];
    var s := FieldSlot(|m.fields|, Sizes(m.oneofGroups), fn).value;
    FieldSlotInRange(|m.fields|, Sizes(m.oneofGroups), fn);
    SetFieldAtWalk(m, fn, FieldAddDescription(FieldAt(m, s), d, p[2..]));
    var f := AllFields(m)[fn];
    var f' := FieldAddDescription(f, d, p[2..]);
    var m' := MessageAddDescription(m, d, p).value;
    assert m' == SetFieldAt(m, s, f');
    assert AllFields(m') == AllFields(m)[fn := f'];
    var t := LocateField(f, p[2..]);
    assert LocateMessage(m, p) == Under(MESSAGE_FIELD, fn, t);
    if |q| < 2 {
      AfterSelfUnder(Located([], MessageNode, m.description), MESSAGE_FIELD, fn, t, d);
    } else {
      var tag, index, rest := q[0], q[1], q[2..];
      if tag == MESSAGE_FIELD {
        if GetField(m, index).Some? {
          if index == fn {
            FieldLens(f, d, p[2..], rest);
            AfterUnderSame(MESSAGE_FIELD, fn, LocateField(f, rest), t, d);
          } else {
            AfterUnderOther(MESSAGE_FIELD, index, MESSAGE_FIELD, fn, LocateField(AllFields(m)[index], rest), t, d);
          }
        }
      } else if tag == MESSAGE_NESTED_TYPE && PyIndex(index, |m.messages|).Some? {
        var k := PyIndex(index, |m.messages|).value;
        AfterUnderOther(tag, k, MESSAGE_FIELD, fn, LocateMessage(m.messages[k], rest), t, d);
      } else if tag == MESSAGE_ENUM_TYPE && PyIndex(index, |m.enums|).Some? {
        var k := PyIndex(index, |m.enums|).value;
        AfterUnderOther(tag, k, MESSAGE_FIELD, fn, LocateEnum(m.enums[k], rest), t, d);
      } else if tag == MESSAGE_ONEOF_DECL && PyIndex(index, |m.oneofGroups|).Some? {
        var k := PyIndex(index, |m.oneofGroups|).value;
        assert |m'.oneofGroups| == |m.oneofGroups|;
        assert m'.oneofGroups[k].description == m.oneofGroups[k].description;
        AfterUnderOther(tag, k, MESSAGE_FIELD, fn, LocateOneOf(m.oneofGroups[k], rest), t, d);
      }
    }
  }

  /** A route through tag 4 to an enum declared in the message. */
  lemma MessageLensEnum(m: Message, d: string, p: seq<int>, q: seq<int>)
    requires |p| >= 2 && p[0] == MESSAGE_ENUM_TYPE
    requires MessageAddDescription(m, d, p).Ok?
    ensures LocateMessage(MessageAddDescription(m, d, p).value, q) == After(LocateMessage(m, q), LocateMessage(m, p), d)
  {
    var k := PyIndex(p[1], |m.enums|).value;
    var e' := EnumAddDescription(m.enums[k], d, p[2..]).value;
    var m' := MessageAddDescription(m, d, p).value;
    assert m' == m.(enums := m.enums[k := e']);
    var t := LocateEnum(m.enums[k], p[2..]);
    if |q| < 2 {
      AfterSelfUnder(Located([], MessageNode, m.description), MESSAGE_ENUM_TYPE, k, t, d);
    } else {
      var tag, index, rest := q[0], q[1], q[2..];
      if tag == MESSAGE_FIELD {
        assert AllFields(m') == AllFields(m);
        if GetField(m, index).Some? {
          AfterUnderOther(tag, index, MESSAGE_ENUM_TYPE, k, LocateField(GetField(m, index).value, rest), t, d);
        }
      } else if tag == MESSAGE_NESTED_TYPE && PyIndex(index, |m.messages|).Some? {
        var j := PyIndex(index, |m.messages|).value;
        AfterUnderOther(tag, j, MESSAGE_ENUM_TYPE, k, LocateMessage(m.messages[j], rest), t, d);
      } else if tag == MESSAGE_ENUM_TYPE && PyIndex(index, |m.enums|).Some? {
        var j := PyIndex(index, |m.enums|).value;
        if j == k {
          EnumLens(m.enums[k], d, p[2..], rest);
          AfterUnderSame(tag, k, LocateEnum(m.enums[k], rest), t, d);
        } else {
          AfterUnderOther(tag, j, MESSAGE_ENUM_TYPE, k, LocateEnum(m.enums[j], rest), t, d);
        }
      } else if tag == MESSAGE_ONEOF_DECL && PyIndex(index, |m.oneofGroups|).Some? {
        var j := PyIndex(index, |m.oneofGroups|).value;
        AfterUnderOther(tag, j, MESSAGE_ENUM_TYPE, k, LocateOneOf(m.oneofGroups[j], rest), t, d);
      }
    }
  }

  /** A route through tag 8 to a oneof group. */
  lemma MessageLensOneOf(m: Message, d: string, p: seq<int>, q: seq<int>)
    requires |p| >= 2 && p[0] == MESSAGE_ONEOF_DECL
    requires MessageAddDescription(m, d, p).Ok?
    ensures LocateMessage(MessageAddDescription(m, d, p).value, q) == After(LocateMessage(m, q), LocateMessage(m, p), d)
  {
    var k := PyIndex(p[1], |m.oneofGroups|).value;
    var o' := OneOfAddDescription(m.oneofGroups[k], d, p[2..]);
    var m' := MessageAddDescription(m, d, p).value;
    assert m' == m.(oneofGroups := m.oneofGroups[k := o']);
    var t := LocateOneOf(m.oneofGroups[k], p[2..]);
    if |q| < 2 {
      AfterSelfUnder(Located([], MessageNode, m.description), MESSAGE_ONEOF_DECL, k, t, d);
    } else {
      var tag, index, rest := q[0], q[1], q[2..];
      if tag == MESSAGE_FIELD {
        assert GroupFields(m'.oneofGroups) == GroupFields(m.oneofGroups) by {
          OneOfUpdateKeepsFields(m.oneofGroups, k, o');
        }
        assert AllFields(m') == AllFields(m);
        if GetField(m, index).Some? {
          AfterUnderOther(tag, index, MESSAGE_ONEOF_DECL, k, LocateField(GetField(m, index).value, rest), t, d);
        }
      } else if tag == MESSAGE_NESTED_TYPE && PyIndex(index, |m.messages|).Some? {
        var j := PyIndex(index, |m.messages|).value;
        AfterUnderOther(tag, j, MESSAGE_ONEOF_DECL, k, LocateMessage(m.messages[j], rest), t, d);
      } else if tag == MESSAGE_ENUM_TYPE && PyIndex(index, |m.enums|).Some? {
        var j := PyIndex(index, |m.enums|).value;
        AfterUnderOther(tag, j, MESSAGE_ONEOF_DECL, k, LocateEnum(m.enums[j], rest), t, d);
      } else if tag == MESSAGE_ONEOF_DECL && PyIndex(index, |m.oneofGroups|).Some? {
        var j := PyIndex(index, |m.oneofGroups|).value;
        if j == k {
          OneOfLens(m.oneofGroups[k], d, p[2..], rest);
          AfterUnderSame(tag, k, LocateOneOf(m.oneofGroups[k], rest), t, d);
        } else {
          AfterUnderOther(tag, j, MESSAGE_ONEOF_DECL, k, LocateOneOf(m.oneofGroups[j], rest), t, d);
        }
      }
    }
  }

  /** Describing a oneof group leaves the `get_field` walk as it was. */
  lemma {:induction false} OneOfUpdateKeepsFields(gs: seq<OneOf>, k: nat, o: OneOf)
    requires k < |gs| && o.fields == gs[k].fields
    ensures GroupFields(gs[k := o]) == GroupFields(gs)
  {
    if k > 0 {
      OneOfUpdateKeepsFields(gs[1..], k - 1, o);
      assert gs[k := o][1..] == gs[1..][k - 1 := o];
    } else {
      assert gs[k := o][1..] == gs[1..];
    }
  }

  /** A route through tag 3 to a nested message. */
  lemma {:induction false} MessageLensNested(m: Message, d: string, p: seq<int>, q: seq<int>)
    requires |p| >= 2 && p[0] == MESSAGE_NESTED_TYPE
    requires MessageAddDescription(m, d, p).Ok?
    ensures LocateMessage(MessageAddDescription(m, d, p).value, q) == After(LocateMessage(m, q), LocateMessage(m, p), d)
    decreases m, 0
  {
    var k := PyIndex(p[1], |m.messages|).value;
    var sub' := MessageAddDescription(m.messages[k], d, p[2..]).value;
    var m' := MessageAddDescription(m, d, p).value;
    assert m' == m.(messages := m.messages[k := sub']);
    var t := LocateMessage(m.messages[k], p[2..]);
    if |q| < 2 {
      AfterSelfUnder(Located([], MessageNode, m.description), MESSAGE_NESTED_TYPE, k, t, d);
    } else {
      var tag, index, rest := q[0], q[1], q[2..];
      if tag == MESSAGE_FIELD {
        assert AllFields(m') == AllFields(m);
        if GetField(m, index).Some? {
          AfterUnderOther(tag, index, MESSAGE_NESTED_TYPE, k, LocateField(GetField(m, index).value, rest), t, d);
        }
      } else if tag == MESSAGE_NESTED_TYPE && PyIndex(index, |m.messages|).Some? {
        var j := PyIndex(index, |m.messages|).value;
        if j == k {
          MessageLens(m.messages[k], d, p[2..], rest);
          AfterUnderSame(tag, k, LocateMessage(m.messages[k], rest), t, d);
        } else {
          AfterUnderOther(tag, j, MESSAGE_NESTED_TYPE, k, LocateMessage(m.messages[j], rest), t, d);
        }
      } else if tag == MESSAGE_ENUM_TYPE && PyIndex(index, |m.enums|).Some? {
        var j := PyIndex(index, |m.enums|).value;
        AfterUnderOther(tag, j, MESSAGE_NESTED_TYPE, k, LocateEnum(m.enums[j], rest), t, d);
      } else if tag == MESSAGE_ONEOF_DECL && PyIndex(index, |m.oneofGroups|).Some? {
        var j := PyIndex(index, |m.oneofGroups|).value;
        AfterUnderOther(tag, j, MESSAGE_NESTED_TYPE, k, LocateOneOf(m.oneofGroups[j], rest), t, d);
      }
    }
  }

  /** `Message.add_description` writes the description of the node the path
      designates (when that node takes one) and leaves every other node as
      it was. */
  lemma {:induction false} MessageLens(m: Message, d: string, p: seq<int>, q: seq<int>)
    requires MessageAddDescription(m, d, p).Ok?
    ensures LocateMessage(MessageAddDescription(m, d, p).value, q) == After(LocateMessage(m, q), LocateMessage(m, p), d)
    decreases m, 1
  {
    if |p| < 2 {
      MessageLensSelf(m, d, p, q);
    } else if p[0] == MESSAGE_FIELD {
      MessageLensField(m, d, p, q);
    } else if p[0] == MESSAGE_NESTED_TYPE {
      MessageLensNested(m, d, p, q);
    } else if p[0] == MESSAGE_ENUM_TYPE {
      MessageLensEnum(m, d, p, q);
    } else if p[0] == MESSAGE_ONEOF_DECL {
      MessageLensOneOf(m, d, p, q);
    }
  }

  /** `File.add_description` writes the description of the one node the path
      designates, unless that node is the File itself, a Service or an enum
      value, and leaves every other node as it was. */
  lemma {:induction false} FileLens(f: File, d: string, p: seq<int>, q: seq<int>)
    requires FileAddDescription(f, d, p).Ok?
    ensures LocateFile(FileAddDescription(f, d, p).value, q) == After(LocateFile(f, q), LocateFile(f, p), d)
  {
    var f' := FileAddDescription(f, d, p).value;
    if |p| < 2 {
      return;
    }
    var ptag := p[0];
    if ptag != FILE_MESSAGE_TYPE && ptag != FILE_SERVICE && ptag != FILE_ENUM_TYPE {
      return;
    }
    var n := if ptag == FILE_MESSAGE_TYPE then |f.messages| else if ptag == FILE_SERVICE then |f.services| else |f.enums|;
    var k := PyIndex(p[1], n).value;
    var t :=
      if ptag == FILE_MESSAGE_TYPE then LocateMessage(f.messages[k], p[2..])
      else if ptag == FILE_SERVICE then LocateService(f.services[k], p[2..])
      else LocateEnum(f.enums[k], p[2..]);
    assert LocateFile(f, p) == Under(ptag, k, t);
    if |q| < 2 {
      AfterSelfUnder(Located([], FileNode, ""), ptag, k, t, d);
      return;
    }
    var tag, index, rest := q[0], q[1], q[2..];
    var nq := if tag == FILE_MESSAGE_TYPE then |f.messages| else if tag == FILE_SERVICE then |f.services| else |f.enums|;
    if (tag != FILE_MESSAGE_TYPE && tag != FILE_SERVICE && tag != FILE_ENUM_TYPE) || PyIndex(index, nq).None? {
      return;
    }
    var j := PyIndex(index, nq).value;
    var l :=
      if tag == FILE_MESSAGE_TYPE then LocateMessage(f.messages[j], rest)
      else if tag == FILE_SERVICE then LocateService(f.services[j], rest)
      else LocateEnum(f.enums[j], rest);
    assert LocateFile(f, q) == Under(tag, j, l);
    if tag == ptag && j == k {
      if tag == FILE_MESSAGE_TYPE {
        MessageLens(f.messages[k], d, p[2..], rest);
      } else if tag == FILE_SERVICE {
        ServiceLens(f.services[k], d, p[2..], rest);
      } else {
        EnumLens(f.enums[k], d, p[2..], rest);
      }
      AfterUnderSame(tag, k, l, t, d);
    } else {
      AfterUnderOther(tag, j, ptag, k, l, t, d);
    }
  }

  // ---------------------------------------------------------------------
  // A path that designates a node never raises.

  lemma {:induction false} MessageLocatedIsOk(m: Message, d: string, p: seq<int>)
    requires LocateMessage(m, p).Some?
    ensures MessageAddDescription(m, d, p).Ok?
    decreases m
  {
    if |p| >= 2 && p[0] == MESSAGE_FIELD {
      FieldSlotInRange(|m.fields|, Sizes(m.oneofGroups), p[1]);
      GroupFieldsLength(m.oneofGroups);
    } else if |p| >= 2 && p[0] == MESSAGE_NESTED_TYPE {
      MessageLocatedIsOk(m.messages[PyIndex(p[1], |m.messages|).value], d, p[2..]);
    }
  }

  /** Every path that designates a node of the file is followed without an
      IndexError or AttributeError. */
  lemma FileLocatedIsOk(f: File, d: string, p: seq<int>)
    requires LocateFile(f, p).Some?
    ensures FileAddDescription(f, d, p).Ok?
  {
    if |p| >= 2 && p[0] == FILE_MESSAGE_TYPE {
      MessageLocatedIsOk(f.messages[PyIndex(p[1], |f.messages|).value], d, p[2..]);
    }
  }

  // ---------------------------------------------------------------------
  // Writing twice along the same path: the later description wins.

  lemma {:induction false} MessageOverwrite(m: Message, d1: string, d2: string, p: seq<int>)
    requires MessageAddDescription(m, d1, p).Ok?
    ensures MessageAddDescription(MessageAddDescription(m, d1, p).value, d2, p) == MessageAddDescription(m, d2, p)
    decreases m
  {
    var m1 := MessageAddDescription(m, d1, p).value;
    if |p| >= 2 {
      var tag, index, rest := p[0], p[1], p[2..];
      if tag == MESSAGE_FIELD {
        var s := FieldSlot(|m.fields|, Sizes(m.oneofGroups), index).value;
        FieldSlotInRange(|m.fields|, Sizes(m.oneofGroups), index);
        SetFieldAtWalk(m, index, FieldAddDescription(FieldAt(m, s), d1, rest));
        assert FieldSlot(|m1.fields|, Sizes(m1.oneofGroups), index) == Some(s);
        var f1 := FieldAddDescription(FieldAt(m, s), d1, rest);
        var f2 := FieldAddDescription(FieldAt(m, s), d2, rest);
        assert m1 == SetFieldAt(m, s, f1);
        assert FieldAt(m1, s) == f1;
        assert FieldAddDescription(f1, d2, rest) == f2;
        match s {
          case Direct(i) =>
            assert m.fields[i := f1][i := f2] == m.fields[i := f2];
          case InGroup(g, i) =>
            var gs := m.oneofGroups;
            assert gs[g].fields[i := f1][i := f2] == gs[g].fields[i := f2];
            assert gs[g := gs[g].(fields := gs[g].fields[i := f1])][g := gs[g].(fields := gs[g].fields[i := f2])]
                == gs[g := gs[g].(fields := gs[g].fields[i := f2])];
        }
      } else if tag == MESSAGE_NESTED_TYPE {
        var k := PyIndex(index, |m.messages|).value;
        MessageOverwrite(m.messages[k], d1, d2, rest);
        var sub1 := MessageAddDescription(m.messages[k], d1, rest).value;
        assert m1 == m.(messages := m.messages[k := sub1]);
        var r2 := MessageAddDescription(m.messages[k], d2, rest);
        if r2.Ok? {
          assert m.messages[k := sub1][k := r2.value] == m.messages[k := r2.value];
        }
      } else if tag == MESSAGE_ENUM_TYPE {
        var k := PyIndex(index, |m.enums|).value;
        EnumOverwrite(m.enums[k], d1, d2, rest);
        var e1 := EnumAddDescription(m.enums[k], d1, rest).value;
        var r2 := EnumAddDescription(m.enums[k], d2, rest);
        if r2.Ok? {
          assert m.enums[k := e1][k := r2.value] == m.enums[k := r2.value];
        }
      } else if tag == MESSAGE_ONEOF_DECL {
        var k := PyIndex(index, |m.oneofGroups|).value;
        var o1 := OneOfAddDescription(m.oneofGroups[k], d1, rest);
        var o2 := OneOfAddDescription(m.oneofGroups[k], d2, rest);
        assert OneOfAddDescription(o1, d2, rest) == o2;
        assert m.oneofGroups[k := o1][k := o2] == m.oneofGroups[k := o2];
      }
    }
  }

  lemma EnumOverwrite(e: Enum, d1: string, d2: string, p: seq<int>)
    requires EnumAddDescription(e, d1, p).Ok?
    ensures EnumAddDescription(EnumAddDescription(e, d1, p).value, d2, p) == EnumAddDescription(e, d2, p)
  {
    if |p| >= 2 && p[0] == ENUM_VALUE {
      var k := PyIndex(p[1], |e.values|).value;
      assert e.values[k := e.values[k]] == e.values;
    }
  }

  lemma ServiceOverwrite(sv: Service, d1: string, d2: string, p: seq<int>)
    requires ServiceAddDescription(sv, d1, p).Ok?
    ensures ServiceAddDescription(ServiceAddDescription(sv, d1, p).value, d2, p) == ServiceAddDescription(sv, d2, p)
  {
    if |p| >= 2 && p[0] == SERVICE_METHOD {
      var k := PyIndex(p[1], |sv.rpcs|).value;
      var r1 := RpcAddDescription(sv.rpcs[k], d1, p[2..]);
      var r2 := RpcAddDescription(sv.rpcs[k], d2, p[2..]);
      assert RpcAddDescription(r1, d2, p[2..]) == r2;
      assert sv.rpcs[k := r1][k := r2] == sv.rpcs[k := r2];
    }
  }

  /** Applying two descriptions along the same path leaves the tree as if
      only the second had been applied. */
  lemma FileOverwrite(f: File, d1: string, d2: string, p: seq<int>)
    requires FileAddDescription(f, d1, p).Ok?
    ensures FileAddDescription(FileAddDescription(f, d1, p).value, d2, p) == FileAddDescription(f, d2, p)
  {
    if |p| >= 2 {
      var tag, index, rest := p[0], p[1], p[2..];
      if tag == FILE_MESSAGE_TYPE {
        var k := PyIndex(index, |f.messages|).value;
        MessageOverwrite(f.messages[k], d1, d2, rest);
        var m1 := MessageAddDescription(f.messages[k], d1, rest).value;
        var r2 := MessageAddDescription(f.messages[k], d2, rest);
        if r2.Ok? {
          assert f.messages[k := m1][k := r2.value] == f.messages[k := r2.value];
        }
      } else if tag == FILE_SERVICE {
        var k := PyIndex(index, |f.services|).value;
        ServiceOverwrite(f.services[k], d1, d2, rest);
        var s1 := ServiceAddDescription(f.services[k], d1, rest).value;
        var r2 := ServiceAddDescription(f.services[k], d2, rest);
        if r2.Ok? {
          assert f.services[k := s1][k := r2.value] == f.services[k := r2.value];
        }
      } else if tag == FILE_ENUM_TYPE {
        var k := PyIndex(index, |f.enums|).value;
        EnumOverwrite(f.enums[k], d1, d2, rest);
        var e1 := EnumAddDescription(f.enums[k], d1, rest).value;
        var r2 := EnumAddDescription(f.enums[k], d2, rest);
        if r2.Ok? {
          assert f.enums[k := e1][k := r2.value] == f.enums[k := r2.value];
        }
      }
    }
  }

  // ---------------------------------------------------------------------
  // Only descriptions change: a tree with every description blanked.

  function EraseField(f: Field): Field { f.(description := "") }

  function EraseFields(fs: seq<Field>): seq<Field> {
    seq(|fs|, i requires 0 <= i < |fs| => EraseField(fs[i]))
  }

  function EraseOneOf(o: OneOf): OneOf { OneOf(o.name, EraseFields(o.fields), "") }

  function EraseEnum(e: Enum): Enum {
    Enum(e.name, seq(|e.values|, i requires 0 <= i < |e.values| => e.values[i].(description := "")), "")
  }

  function EraseMessage(m: Message): Message
    decreases m
  {
    Message(
      m.name,
      EraseFields(m.fields),
      seq(|m.messages|, i requires 0 <= i < |m.messages| => EraseMessage(m.messages[i])),
      seq(|m.oneofGroups|, i requires 0 <= i < |m.oneofGroups| => EraseOneOf(m.oneofGroups[i])),
      seq(|m.enums|, i requires 0 <= i < |m.enums| => EraseEnum(m.enums[i])),
      "")
  }

  function EraseService(sv: Service): Service {
    Service(sv.name, seq(|sv.rpcs|, i requires 0 <= i < |sv.rpcs| => sv.rpcs[i].(description := "")), "")
  }

  function EraseFile(f: File): File {
    File(
      f.name,
      seq(|f.messages|, i requires 0 <= i < |f.messages| => EraseMessage(f.messages[i])),
      seq(|f.services|, i requires 0 <= i < |f.services| => EraseService(f.services[i])),
      seq(|f.enums|, i requires 0 <= i < |f.enums| => EraseEnum(f.enums[i])))
  }

  lemma EnumShape(e: Enum, d: string, p: seq<int>)
    requires EnumAddDescription(e, d, p).Ok?
    ensures EraseEnum(EnumAddDescription(e, d, p).value) == EraseEnum(e)
  {
    if |p| >= 2 && p[0] == ENUM_VALUE {
      var k := PyIndex(p[1], |e.values|).value;
      assert e.values[k := e.values[k]] == e.values;
    }
  }

  lemma ServiceShape(sv: Service, d: string, p: seq<int>)
    requires ServiceAddDescription(sv, d, p).Ok?
    ensures EraseService(ServiceAddDescription(sv, d, p).value) == EraseService(sv)
  {
    var sv' := ServiceAddDescription(sv, d, p).value;
    assert forall i :: 0 <= i < |sv.rpcs| ==> sv'.rpcs[i].(description := "") == sv.rpcs[i].(description := "");
  }

  lemma {:induction false} MessageShape(m: Message, d: string, p: seq<int>)
    requires MessageAddDescription(m, d, p).Ok?
    ensures EraseMessage(MessageAddDescription(m, d, p).value) == EraseMessage(m)
    decreases m
  {
    var m' := MessageAddDescription(m, d, p).value;
    if |p| < 2 {
      return;
    }
    var tag, index, rest := p[0], p[1], p[2..];
    if tag == MESSAGE_FIELD {
      var s := FieldSlot(|m.fields|, Sizes(m.oneofGroups), index).value;
      FieldSlotInRange(|m.fields|, Sizes(m.oneofGroups), index);
      var f' := FieldAddDescription(FieldAt(m, s), d, rest);
      assert EraseField(f') == EraseField(FieldAt(m, s));
      match s {
        case Direct(i) =>
          assert EraseFields(m.fields[i := f']) == EraseFields(m.fields);
        case InGroup(g, i) =>
          var o := m.oneofGroups[g];
          assert EraseFields(o.fields[i := f']) == EraseFields(o.fields);
          assert EraseOneOf(o.(fields := o.fields[i := f'])) == EraseOneOf(o);
      }
      assert EraseMessage(m') == EraseMessage(m);
    } else if tag == MESSAGE_NESTED_TYPE {
      var k := PyIndex(index, |m.messages|).value;
      MessageShape(m.messages[k], d, rest);
      assert m'.messages == m.messages[k := MessageAddDescription(m.messages[k], d, rest).value];
      assert EraseMessage(m') == EraseMessage(m);
    } else if tag == MESSAGE_ENUM_TYPE {
      var k := PyIndex(index, |m.enums|).value;
      EnumShape(m.enums[k], d, rest);
      assert m'.enums == m.enums[k := EnumAddDescription(m.enums[k], d, rest).value];
      assert EraseMessage(m') == EraseMessage(m);
    } else if tag == MESSAGE_ONEOF_DECL {
      var k := PyIndex(index, |m.oneofGroups|).value;
      assert EraseOneOf(OneOfAddDescription(m.oneofGroups[k], d, rest)) == EraseOneOf(m.oneofGroups[k]);
      assert EraseMessage(m') == EraseMessage(m);
    }
  }

  /** `add_description` changes descriptions only: names, types, flags and
      the length and order of every list stay as they were. */
  lemma FileShape(f: File, d: string, p: seq<int>)
    requires FileAddDescription(f, d, p).Ok?
    ensures EraseFile(FileAddDescription(f, d, p).value) == EraseFile(f)
  {
    var f' := FileAddDescription(f, d, p).value;
    if |p| >= 2 {
      var tag, index, rest := p[0], p[1], p[2..];
      if tag == FILE_MESSAGE_TYPE {
        var k := PyIndex(index, |f.messages|).value;
        MessageShape(f.messages[k], d, rest);
        assert f'.messages == f.messages[k := MessageAddDescription(f.messages[k], d, rest).value];
      } else if tag == FILE_SERVICE {
        var k := PyIndex(index, |f.services|).value;
        ServiceShape(f.services[k], d, rest);
        assert f'.services == f.services[k := ServiceAddDescription(f.services[k], d, rest).value];
      } else if tag == FILE_ENUM_TYPE {
        var k := PyIndex(index, |f.enums|).value;
        EnumShape(f.enums[k], d, rest);
        assert f'.enums == f.enums[k := EnumAddDescription(f.enums[k], d, rest).value];
      }
    }
  }

  // ---------------------------------------------------------------------
  // Whether a path raises depends on the tree's shape, not on the text.

  lemma {:induction false} MessageErrorIgnoresText(m: Message, d1: string, d2: string, p: seq<int>)
    ensures MessageAddDescription(m, d1, p).Err? ==> MessageAddDescription(m, d2, p) == MessageAddDescription(m, d1, p)
    decreases m
  {
    if |p| >= 2 && p[0] == MESSAGE_NESTED_TYPE {
      var k := PyIndex(p[1], |m.messages|);
      if k.Some? {
        MessageErrorIgnoresText(m.messages[k.value], d1, d2, p[2..]);
      }
    }
  }

  /** A path that makes `File.add_description` raise makes it raise the same
      error whatever the description. */
  lemma FileErrorIgnoresText(f: File, d1: string, d2: string, p: seq<int>)
    ensures FileAddDescription(f, d1, p).Err? ==> FileAddDescription(f, d2, p) == FileAddDescription(f, d1, p)
  {
    if |p| >= 2 && p[0] == FILE_MESSAGE_TYPE {
      var k := PyIndex(p[1], |f.messages|);
      if k.Some? {
        MessageErrorIgnoresText(f.messages[k.value], d1, d2, p[2..]);
      }
    }
  }

  // ---------------------------------------------------------------------
  // Services and enum values never receive a description.

  predicate EnumQuiet(e: Enum) {
    forall i :: 0 <= i < |e.values| ==> e.values[i].description == ""
  }

  predicate MessageQuiet(m: Message)
    decreases m
  {
    (forall i :: 0 <= i < |m.enums| ==> EnumQuiet(m.enums[i]))
    && forall i :: 0 <= i < |m.messages| ==> MessageQuiet(m.messages[i])
  }

  /** Every Service and every enum value of the file, at any depth, has an
      empty description. */
  predicate FileQuiet(f: File) {
    (forall i :: 0 <= i < |f.services| ==> f.services[i].description == "")
    && (forall i :: 0 <= i < |f.enums| ==> EnumQuiet(f.enums[i]))
    && forall i :: 0 <= i < |f.messages| ==> MessageQuiet(f.messages[i])
  }

  lemma {:induction false} MessageStaysQuiet(m: Message, d: string, p: seq<int>)
    requires MessageQuiet(m) && MessageAddDescription(m, d, p).Ok?
    ensures MessageQuiet(MessageAddDescription(m, d, p).value)
    decreases m
  {
    var m' := MessageAddDescription(m, d, p).value;
    if |p| >= 2 && p[0] == MESSAGE_NESTED_TYPE {
      var k := PyIndex(p[1], |m.messages|).value;
      MessageStaysQuiet(m.messages[k], d, p[2..]);
      assert m'.messages == m.messages[k := MessageAddDescription(m.messages[k], d, p[2..]).value];
    } else if |p| >= 2 && p[0] == MESSAGE_ENUM_TYPE {
      var k := PyIndex(p[1], |m.enums|).value;
      assert m'.enums == m.enums[k := EnumAddDescription(m.enums[k], d, p[2..]).value];
    } else if |p| >= 2 && p[0] == MESSAGE_FIELD {
      FieldSlotInRange(|m.fields|, Sizes(m.oneofGroups), p[1]);
      var s := FieldSlot(|m.fields|, Sizes(m.oneofGroups), p[1]).value;
      assert m' == SetFieldAt(m, s, FieldAddDescription(FieldAt(m, s), d, p[2..]));
      assert m'.messages == m.messages && m'.enums == m.enums;
    }
  }

  /** `add_description` keeps every service and enum-value description
      empty, whatever the path: a Service ignores a short path and an enum
      value is always handed a long one. */
  lemma FileStaysQuiet(f: File, d: string, p: seq<int>)
    requires FileQuiet(f) && FileAddDescription(f, d, p).Ok?
    ensures FileQuiet(FileAddDescription(f, d, p).value)
  {
    var f' := FileAddDescription(f, d, p).value;
    if |p| >= 2 && p[0] == FILE_MESSAGE_TYPE {
      var k := PyIndex(p[1], |f.messages|).value;
      MessageStaysQuiet(f.messages[k], d, p[2..]);
      assert f'.messages == f.messages[k := MessageAddDescription(f.messages[k], d, p[2..]).value];
    } else if |p| >= 2 && p[0] == FILE_SERVICE {
      var k := PyIndex(p[1], |f.services|).value;
      assert f'.services == f.services[k := ServiceAddDescription(f.services[k], d, p[2..]).value];
    } else if |p| >= 2 && p[0] == FILE_ENUM_TYPE {
      var k := PyIndex(p[1], |f.enums|).value;
      assert f'.enums == f.enums[k := EnumAddDescription(f.enums[k], d, p[2..]).value];
    }
  }

  lemma {:induction false} ErasedMessageQuiet(m: Message)
    requires EraseMessage(m) == m
    ensures MessageQuiet(m)
    decreases m
  {
    forall i | 0 <= i < |m.messages|
      ensures MessageQuiet(m.messages[i])
    {
      assert EraseMessage(m).messages[i] == m.messages[i];
      ErasedMessageQuiet(m.messages[i]);
    }
    forall i | 0 <= i < |m.enums|
      ensures EnumQuiet(m.enums[i])
    {
      assert EraseMessage(m).enums[i] == m.enums[i];
      assert EraseEnum(m.enums[i]).values == m.enums[i].values;
    }
  }

  /** A tree without any description is quiet. */
  lemma ErasedFileQuiet(f: File)
    requires EraseFile(f) == f
    ensures FileQuiet(f)
  {
    forall i | 0 <= i < |f.messages|
      ensures MessageQuiet(f.messages[i])
    {
      assert EraseFile(f).messages[i] == f.messages[i];
      ErasedMessageQuiet(f.messages[i]);
    }
    forall i | 0 <= i < |f.enums|
      ensures EnumQuiet(f.enums[i])
    {
      assert EraseFile(f).enums[i] == f.enums[i];
      assert EraseEnum(f.enums[i]).values == f.enums[i].values;
    }
    forall i | 0 <= i < |f.services|
      ensures f.services[i].description == ""
    {
      assert EraseFile(f).services[i] == f.services[i];
    }
  }
}
