/** The parts of a protocol-buffer CodeGeneratorRequest that the documentation
    generator reads, as plain values. Field numbers are the ones that
    google/protobuf/descriptor.proto assigns, which are also the tags that a
    SourceCodeInfo.Location path uses. */
module Descriptor {
  import opened Util

  // FileDescriptorProto field numbers
  const FILE_MESSAGE_TYPE: int := 4
  const FILE_ENUM_TYPE: int := 5
  const FILE_SERVICE: int := 6

  // DescriptorProto field numbers
  const MESSAGE_FIELD: int := 2
  const MESSAGE_NESTED_TYPE: int := 3
  const MESSAGE_ENUM_TYPE: int := 4
  const MESSAGE_ONEOF_DECL: int := 8

  // EnumDescriptorProto.value and ServiceDescriptorProto.method
  const ENUM_VALUE: int := 2
  const SERVICE_METHOD: int := 2

  // FieldDescriptorProto.Label
  const LABEL_REPEATED: int := 3

  /** A field declaration; `oneofIndex` is None when the descriptor has no
      `oneof_index` (the source asks `HasField("oneof_index")`). */
  datatype FieldDescriptor = FieldDescriptor(
    name: string,
    typeCode: int,
    labelCode: int,
    typeName: string,
    oneofIndex: Option<int>)

  datatype OneofDescriptor = OneofDescriptor(name: string)

  datatype EnumValueDescriptor = EnumValueDescriptor(name: string)

  datatype EnumDescriptor = EnumDescriptor(name: string, values: seq<EnumValueDescriptor>)

  datatype MessageDescriptor = MessageDescriptor(
    name: string,
    fields: seq<FieldDescriptor>,
    nestedTypes: seq<MessageDescriptor>,
    enumTypes: seq<EnumDescriptor>,
    oneofDecls: seq<OneofDescriptor>)

  datatype MethodDescriptor = MethodDescriptor(name: string, inputType: string, outputType: string)

  datatype ServiceDescriptor = ServiceDescriptor(name: string, methods: seq<MethodDescriptor>)

  /** One entry of `source_code_info.location`. */
  datatype Location = Location(
    path: seq<int>,
    leadingComments: string,
    trailingComments: string,
    leadingDetachedComments: seq<string>)

  datatype FileDescriptor = FileDescriptor(
    name: string,
    messageTypes: seq<MessageDescriptor>,
    enumTypes: seq<EnumDescriptor>,
    services: seq<ServiceDescriptor>,
    locations: seq<Location>)

  datatype Request = Request(protoFiles: seq<FileDescriptor>)
}
