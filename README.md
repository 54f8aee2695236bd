# protoc-gen-markdown: the document model, in Dafny

protoc-gen-markdown is a protoc plugin. protoc hands it a CodeGeneratorRequest, and it writes one markdown page per input `.proto` file. This project models the part of the plugin between those two ends:

- **Building.** auto_proto_doc/generate.py `build_files` and auto_proto_doc/model.py `Message._make_message` / `ProtoEnum.make_enum` build a tree of `File`, `Message`, `MessageField`, `OneOfGroup`, `ProtoEnum`, `ProtoEnumValue`, `Service` and `RPC` objects that mirrors the descriptors.
- **Describing.** `populate_descriptions` walks the file's SourceCodeInfo locations. It turns the comments of each location into one description. `add_description` then walks the location's path down the tree and stores the description on the node the path designates.
- **Filtering and naming.** `generate` skips library files (names that start with "google" in any letter case) and names each output `<base>.md`.
- **The legacy model.** The older flat model of the repository's root model.py has its own `build_files`.

The model has two layers:

- **Values.** Modules `Doc` and `LegacyDoc` define the trees as datatypes. Each attacher (`add_description`) and builder is a function over them.
- **Objects.** Modules `Model` and `Legacy` define the same entities as classes.
  - Structure lists are `const`; descriptions, and the `repeated` flag, are `var` fields.
  - Each class has a footprint `Repr` and a `View()` into the value layer.
  - Every method (the attachers, the builders with their loops, `populate_descriptions` and `generate`) is proved to take its object, or its result, to the value that the specification function computes from the old state.
  - The properties of those functions are proved as lemmas: routing, locality, shape preservation, idempotence, error cases and the regression fixture.

Python semantics that matter are written out:

- Negative list indices count from the end (`Util.PyIndex`), and any other miss is an IndexError.
- `get_field` returns None, so the call that follows raises AttributeError (`Doc.NoField`).
- `DataType(code)` raises ValueError for an unknown code, and the display table raises KeyError for DOUBLE, BYTES, ENUM and GROUP (`Build.BuildError`).
- An exception stops the loop that raised it. A description already written stays written, and no partial output is produced.

`ProtoEnum.add_description` hands the enum value the whole path rather than `path[2:]`, so an enum value never takes a description (auto_proto_doc/model.py:191, root model.py:110). The model follows the code. The regression test tests/test_model_regression.py:16-18 expects value docstrings, which disagrees with it; `Addressing.FileStaysQuiet` and `Generate.GeneratedQuiet` state the behaviour the code has.

Modules:

| module | contents |
|---|---|
| Util | Option, Result, Python indexing, footprint disjointness |
| Descriptor | the request as plain datatypes; field numbers of descriptor.proto |
| DataTypes | the `DataType` enum and `display_string` |
| Doc | value trees of auto_proto_doc/model.py, the `get_field` walk and every `add_description` |
| Addressing | which node a path designates; lens, overwrite, shape and error lemmas about the attachers |
| Build | the builders as functions and their properties |
| Model | the classes of auto_proto_doc/model.py and the builder methods of generate.py |
| Generate | `populate_descriptions`, the library filter, the output name and the loop of `generate` |
| LegacyDoc | value trees, attachers and `build_files` of the root model.py, with their properties |
| Legacy | the classes and `build_files` of the root model.py |

## Model

| member | source | states |
|---|---|---|
| Util.PyIndex | auto_proto_doc/model.py:81 | a list index selects a position exactly when -n <= i < n, i itself for i >= 0 and n + i for a negative i; anything else is an IndexError |
| DataTypes.FromCode | auto_proto_doc/model.py:217-230 | `DataType(code)` yields the member whose value is `code` and is the only such member; codes without a member give None (ValueError) |
| DataTypes.DisplayStringTable | auto_proto_doc/model.py:232-244 | a code has a member exactly for 1..14 except 4 and 13; the seven named codes display their .proto keyword, MESSAGE (11) signals "use the type name", DOUBLE, GROUP, BYTES and ENUM have no entry, each direction proved |
| Doc.GetField | auto_proto_doc/model.py:62-70 | `get_field(fn)` is element fn of the walk over the direct fields and then each oneof group's fields, and None for a negative fn or one at or past the end of the walk |
| Doc.FieldSlotInRange | auto_proto_doc/model.py:62-70 | position fn has a slot exactly when 0 <= fn < direct count + group sizes; a direct slot is fn itself; a group slot (g, i) satisfies fn == direct count + sizes of the groups before g + i |
| Doc.GroupSlotInRange | auto_proto_doc/model.py:65-66 | inside the oneof part of the walk, offset n has a slot exactly when 0 <= n < total size, and the slot's group and index add up to n |
| Doc.GroupFieldsAt | auto_proto_doc/model.py:63-66 | the walk over the groups has as many elements as the group sizes add up to, and field i of group g sits at offset (sizes before g) + i |
| Doc.GroupFieldsLength | auto_proto_doc/model.py:63-66 | the walk over the groups has Sum(sizes) elements |
| Doc.GroupFieldsUpdate | auto_proto_doc/model.py:79 | replacing field i of group g keeps every group size and replaces exactly the element at offset (sizes before g) + i of the walk |
| Doc.SetFieldAtWalk | auto_proto_doc/model.py:78-79 | writing the field in the slot of position fn replaces element fn of the `get_field` walk and nothing else, and keeps the number of direct fields and every group size |
| Addressing.FieldLens | auto_proto_doc/model.py:30-32 | after `MessageField.add_description`, every path reads the old node, except that the node the path designates (the field itself, for a path shorter than 2) now has the new description |
| Addressing.OneOfLens | auto_proto_doc/model.py:41-44 | the same locality property for `OneOfGroup.add_description` |
| Addressing.RpcLens | auto_proto_doc/model.py:141-143 | the same locality property for `RPC.add_description` |
| Addressing.EnumLens | auto_proto_doc/model.py:185-191 | `ProtoEnum.add_description` changes only the enum's own description; a designated value keeps its description because it is handed the untrimmed path |
| Addressing.ServiceLens | auto_proto_doc/model.py:152-157 | `Service.add_description` never writes the service's own description and writes only the one RPC that a method path designates |
| Addressing.MessageLensSelf | auto_proto_doc/model.py:73-75 | a path shorter than 2 writes the message's own description and nothing else |
| Addressing.MessageLensField | auto_proto_doc/model.py:78-79 | a tag-2 path writes only the field that `get_field(path[1])` finds, and only when the rest of the path is shorter than 2 |
| Addressing.MessageLensNested | auto_proto_doc/model.py:80-81 | a tag-3 path changes only what the same path designates inside the nested message it indexes |
| Addressing.MessageLensEnum | auto_proto_doc/model.py:82-83 | a tag-4 path changes only what the rest of the path designates inside the indexed enum |
| Addressing.MessageLensOneOf | auto_proto_doc/model.py:84-85 | a tag-8 path writes only the indexed oneof group, and leaves the `get_field` walk as it was |
| Addressing.OneOfUpdateKeepsFields | auto_proto_doc/model.py:84-85 | describing a oneof group leaves the walk over the groups' fields unchanged |
| Addressing.MessageLens | auto_proto_doc/model.py:72-85 | `Message.add_description` writes exactly the node its path designates, when that node takes a description, and every other node of the message tree reads as before |
| Addressing.FileLens | auto_proto_doc/model.py:167-176 | `File.add_description` writes exactly the designated node unless that node is the File, a Service or an enum value; every other node reads as before |
| Addressing.MessageLocatedIsOk | auto_proto_doc/model.py:72-85 | a path that designates a node of a message never raises |
| Addressing.FileLocatedIsOk | auto_proto_doc/model.py:167-176 | a path that designates a node of the file is followed without an IndexError or AttributeError |
| Addressing.MessageOverwrite | auto_proto_doc/model.py:72-85 | applying d1 and then d2 along the same path gives the same message as applying d2 alone |
| Addressing.EnumOverwrite | auto_proto_doc/model.py:185-191 | the later description wins on an enum |
| Addressing.ServiceOverwrite | auto_proto_doc/model.py:152-157 | the later description wins on a service |
| Addressing.FileOverwrite | auto_proto_doc/model.py:167-176 | two descriptions along the same path leave the file as if only the second had been applied |
| Addressing.EnumShape | auto_proto_doc/model.py:185-191 | describing an enum changes descriptions only: the name, the values' names and the length and order of the value list are kept |
| Addressing.ServiceShape | auto_proto_doc/model.py:152-157 | describing a service changes RPC descriptions only |
| Addressing.MessageShape | auto_proto_doc/model.py:72-85 | describing a message changes descriptions only, at every depth: names, types, flags and every list's length and order are kept |
| Addressing.FileShape | auto_proto_doc/model.py:167-176 | `File.add_description` changes descriptions only |
| Addressing.MessageErrorIgnoresText | auto_proto_doc/model.py:72-85 | whether a message path raises, and with which error, does not depend on the description text |
| Addressing.FileErrorIgnoresText | auto_proto_doc/model.py:167-176 | a path that makes `File.add_description` raise makes it raise the same error whatever the text |
| Addressing.MessageStaysQuiet | auto_proto_doc/model.py:185-191 | describing a message keeps every enum value under it without a description |
| Addressing.FileStaysQuiet | auto_proto_doc/model.py:152-154 | no path ever gives a Service or an enum value a description |
| Addressing.ErasedMessageQuiet | auto_proto_doc/model.py:47-54 | a message tree without any description has quiet enum values |
| Addressing.ErasedFileQuiet | auto_proto_doc/model.py:160-165 | a file tree without any description is quiet |
| Build.FieldClassification | auto_proto_doc/model.py:99-109 | a field builds exactly for the seven named codes and MESSAGE; its type is the .proto keyword (or the type name for MESSAGE), `is_primitive` holds exactly for the named codes, `repeated` exactly for LABEL_REPEATED, and the description is empty; codes 1/10/12/14 raise KeyError and codes without a member raise ValueError, each direction proved |
| Build.PlaceFields | auto_proto_doc/model.py:98-114 | the field loop over already created oneof groups keeps one list per group |
| Build.PlacementOutcome | auto_proto_doc/model.py:98-114 | the field loop succeeds exactly when no declaration fails, and otherwise raises the error of the first failing declaration, with every earlier one fine |
| Build.PlaceFieldsStops | auto_proto_doc/model.py:98-114 | once a prefix of the field loop raises, the loop raises that error |
| Build.PlacementContents | auto_proto_doc/model.py:108-114 | every declaration classifies; the message's own list holds the fields of exactly the declarations without `oneof_index`, and group k those indexed to k (Python indexing), each in declaration order |
| Build.MakeAllAppend | auto_proto_doc/model.py:112-114 | appending a declaration appends its field |
| Build.PlaceDirectStep | auto_proto_doc/model.py:113-114 | a declaration without `oneof_index` goes to the end of the message's own list |
| Build.PlaceGroupStep | auto_proto_doc/model.py:110-112 | a declaration with `oneof_index` goes to the end of the group it indexes |
| Build.PlacementCount | auto_proto_doc/model.py:98-114 | no field is lost or duplicated: direct fields plus group fields number exactly the declarations |
| Build.QualifiedName | auto_proto_doc/model.py:89-92 | with a parent name the message is called `parent.name`, otherwise by its own name |
| Build.MakeEnum | auto_proto_doc/model.py:193-200 | `make_enum` keeps the enum's name and one blank value per declared value, in order, with the same names |
| Build.NestedStops | auto_proto_doc/model.py:116-120 | once a nested message raises, the later ones are not built and the error stands |
| Build.NestedAt | auto_proto_doc/model.py:116-120 | the nested list builds exactly when each nested declaration builds under the parent's name, and element i is that message |
| Build.NestedStep | auto_proto_doc/model.py:116-120 | one more nested declaration either raises or appends its message |
| Build.NestedError | auto_proto_doc/model.py:116-120 | a failing nested list raises the error of the first nested declaration that fails |
| Build.MessageShape | auto_proto_doc/model.py:87-127 | `_make_message` names the message, creates one oneof group per declaration with its name, builds nested message i under this message's name (so it is called `name.child`), and makes the enums with `make_enum`, in order |
| Build.MessageOutcome | auto_proto_doc/model.py:87-127 | `_make_message` succeeds exactly when the field loop and every nested message succeed |
| Build.DescendantsOfPrefix | auto_proto_doc/model.py:56-60 | every message in the descendant sequence of messages named under a prefix is named under it |
| Build.DescendantsQualified | auto_proto_doc/model.py:56-60 | every descendant of a built message, at any depth, has a name starting with `message name.` |
| Build.MessageBlank | auto_proto_doc/model.py:87-127 | a freshly built message has no description anywhere in its tree |
| Build.EnumBlank | auto_proto_doc/model.py:193-200 | a freshly built enum has no description |
| Build.FieldsBlank | auto_proto_doc/model.py:107 | freshly built fields have no description |
| Build.MessagesStop | auto_proto_doc/generate.py:53 | the first top-level message that raises stops the file |
| Build.FilesStop | auto_proto_doc/generate.py:50-59 | the first file that raises stops `build_files` |
| Build.MessagesAt | auto_proto_doc/generate.py:53 | the message list builds exactly when every top-level message builds (with no prefix), and element i is message i |
| Build.FileShape | auto_proto_doc/generate.py:51-59 | a file builds exactly when its messages do; it keeps the file name, has one message per declaration, `make_enum` of each enum, and one blank Service per service with one blank RPC per method carrying the method's name, input and output type |
| Build.FilesAt | auto_proto_doc/generate.py:48-61 | `build_files` succeeds exactly when every file builds, with one File per proto_file in request order and the same names |
| Build.FileBlank | auto_proto_doc/generate.py:48-61 | a freshly built file has no description anywhere |
| Build.RegressionMessage | tests/test_model_regression.py:43-62 | MyMessage builds to intval int32, strval string and whatval `.What`, with whatval repeated and not primitive, and nothing described yet |
| Model.MessageField.constructor | auto_proto_doc/model.py:22-28 | a new field has the given name, type and primitive flag, is not repeated and has an empty description |
| Model.MessageField.AddDescription | auto_proto_doc/model.py:30-32 | the field takes the description exactly when the path is shorter than 2 |
| Model.RPC.constructor | auto_proto_doc/model.py:134-139 | a new RPC has the given names and an empty description |
| Model.RPC.AddDescription | auto_proto_doc/model.py:141-143 | the RPC takes the description exactly when the path is shorter than 2 |
| Model.ProtoEnumValue.constructor | auto_proto_doc/model.py:203-206 | a new value has the given name and an empty description |
| Model.ProtoEnumValue.AddDescription | auto_proto_doc/model.py:208-210 | the value takes the description exactly when the path is shorter than 2 |
| Model.Service.constructor | auto_proto_doc/model.py:146-150 | a new service holds the given RPCs and has an empty description |
| Model.Service.AddDescription | auto_proto_doc/model.py:152-157 | the service's new state is `ServiceAddDescription` of its old state, and an IndexError leaves every object unchanged |
| Model.ProtoEnum.constructor | auto_proto_doc/model.py:179-183 | a new enum holds the given values and has an empty description |
| Model.ProtoEnum.AddDescription | auto_proto_doc/model.py:185-191 | the enum's new state is `EnumAddDescription` of its old state, and an IndexError leaves every object unchanged |
| Model.ProtoEnum.MakeEnum | auto_proto_doc/model.py:193-200 | the new enum object views as `Build.MakeEnum` of the declaration |
| Model.OneOfGroup.constructor | auto_proto_doc/model.py:35-39 | a new group holds the given fields and has an empty description |
| Model.OneOfGroup.AddDescription | auto_proto_doc/model.py:41-44 | the group takes the description exactly when the path is shorter than 2 |
| Model.Message.constructor | auto_proto_doc/model.py:47-54 | a new message holds the given fields, nested messages, groups and enums and has an empty description |
| Model.Message.GetField | auto_proto_doc/model.py:62-70 | `get_field(fn)` returns an object of the message exactly when 0 <= fn < length of the walk, and that object views as element fn of the walk |
| Model.Message.MakeField | auto_proto_doc/model.py:100-109 | the new field object views as `Build.MakeField` of the declaration, or the builder's error is returned |
| Model.Message.MakeMessage | auto_proto_doc/model.py:129-131 | `make_message` builds a fresh object tree that views as `Build.MakeMessage(md, None)`, or returns its error |
| Model.Message.MakeMessageIn | auto_proto_doc/model.py:87-127 | `_make_message(md, name)` builds a fresh, footprint-disjoint object tree that views as `Build.MakeMessage`, or returns its error |
| Model.Message.MakeOwnObjects | auto_proto_doc/model.py:94-114 | the groups and the field loop produce fresh disjoint objects whose views are the placed fields and the groups of `Build.PlaceFields`, or its error |
| Model.Message.PlaceFieldObjects | auto_proto_doc/model.py:98-114 | the field loop places fresh, distinct field objects whose views are exactly `Build.PlaceFields`, or returns its first error |
| Model.Message.MakeGroupObjects | auto_proto_doc/model.py:94-96 | one fresh group per oneof declaration, holding the fields placed in it |
| Model.Message.MakeChildObjects | auto_proto_doc/model.py:116-126 | the nested messages and enums are fresh, disjoint and view as `Build.MakeNested` and `Build.MakeEnums` |
| Model.Message.MakeNestedObjects | auto_proto_doc/model.py:116-120 | the nested-message loop yields fresh disjoint trees that view as `Build.MakeNested`, or its error |
| Model.Message.AddNestedObject | auto_proto_doc/model.py:117-119 | one nested message more, appended and disjoint from the earlier ones, or the error of the nested build |
| Model.Message.Assemble | auto_proto_doc/model.py:89-92 | the message object made from its parts views as the message of those parts' views |
| Model.Message.AddDescription | auto_proto_doc/model.py:72-85 | the message tree's new state is `MessageAddDescription` of its old state; an IndexError or AttributeError leaves every object unchanged |
| Model.Message.AddFieldDescription | auto_proto_doc/model.py:78-79 | a tag-2 path describes the field `get_field` finds, or raises AttributeError with nothing changed |
| Model.Message.DescribeDirectField | auto_proto_doc/model.py:79 | describing direct field i changes the view at that slot only |
| Model.Message.DescribeGroupField | auto_proto_doc/model.py:79 | describing field i of group g changes the view at that slot only |
| Model.Message.DescribeNested | auto_proto_doc/model.py:80-81 | the view changes at nested message k exactly as `MessageAddDescription` says, or the error leaves everything unchanged |
| Model.Message.DescribeEnum | auto_proto_doc/model.py:82-83 | the view changes at enum k exactly as `EnumAddDescription` says, or the error leaves everything unchanged |
| Model.Message.DescribeOneOf | auto_proto_doc/model.py:84-85 | the view changes at group k only |
| Model.File.constructor | auto_proto_doc/model.py:160-165 | a new file holds the given messages, services and enums |
| Model.File.AddDescription | auto_proto_doc/model.py:167-176 | the file tree's new state is `FileAddDescription` of its old state; an error leaves every object unchanged |
| Model.File.DescribeMessage | auto_proto_doc/model.py:171-172 | the view changes at message k exactly as `MessageAddDescription` says |
| Model.File.DescribeService | auto_proto_doc/model.py:173-174 | the view changes at service k exactly as `ServiceAddDescription` says |
| Model.File.DescribeEnum | auto_proto_doc/model.py:175-176 | the view changes at enum k exactly as `EnumAddDescription` says |
| Model.MakeEnumObjects | auto_proto_doc/generate.py:54 | one fresh enum object per declaration, footprints disjoint, viewing as `Build.MakeEnums` |
| Model.MakeMessageObjects | auto_proto_doc/generate.py:53 | one fresh message tree per top-level declaration, footprints disjoint, viewing as `Build.MakeMessages`, or its error |
| Model.MakeServiceObject | auto_proto_doc/generate.py:56-59 | a fresh service with one RPC per method, viewing as `Build.MakeService` |
| Model.MakeServiceObjects | auto_proto_doc/generate.py:55-59 | one fresh service per declaration, footprints disjoint, viewing as `Build.MakeServices` |
| Model.AssembleFile | auto_proto_doc/generate.py:51-52 | the file object made from its parts views as the file of those parts' views |
| Model.BuildFile | auto_proto_doc/generate.py:51-59 | one iteration of `build_files` makes a fresh file whose view is `Build.BuildFile`, or returns its error |
| Model.BuildFiles | auto_proto_doc/generate.py:48-61 | `build_files` makes fresh, pairwise disjoint files whose views are `Build.BuildFiles`, or returns its error |
| Generate.CommentTextNone | auto_proto_doc/generate.py:66-73 | a location contributes nothing exactly when both comments are empty and it has no detached comments |
| Generate.LeadingOnly | auto_proto_doc/generate.py:67-68 | a lone leading comment becomes the description unchanged |
| Generate.CommentTextEnds | auto_proto_doc/generate.py:66-74 | the description starts with the leading comment when there is one and ends with the last detached comment when there are any |
| Generate.JoinAppend | auto_proto_doc/generate.py:74 | joining one more piece appends a space and that piece |
| Generate.PopulateStops | auto_proto_doc/generate.py:64-74 | the first location that raises stops the loop; the descriptions written before it stay |
| Generate.PopulateIgnoresSilent | auto_proto_doc/generate.py:73-74 | locations without any comment have no effect |
| Generate.PopulateOverwrite | auto_proto_doc/generate.py:64-74 | of two consecutive locations with the same path, the later one with text decides the description |
| Generate.PopulateLastWins | auto_proto_doc/generate.py:64-74 | when no location raises, every node carries the text of the last commented location that designates it (by any spelling of its indices, with any locations in between), and keeps its old description when none does |
| Generate.PopulateShape | auto_proto_doc/generate.py:64-74 | describing a file changes descriptions only |
| Generate.PopulateQuiet | auto_proto_doc/generate.py:64-74 | describing keeps services and enum values without a description |
| Generate.PopulateDescriptions | auto_proto_doc/generate.py:64-74 | the loop leaves the file tree as `Populate` of its old state says, and returns the error that stopped it, if any |
| Generate.LastIndex | auto_proto_doc/generate.py:42 | the position of the last occurrence of a character, or None when it does not occur |
| Generate.LastIndexSplit | auto_proto_doc/generate.py:42 | the last separator of `s + c + t` is the middle one when t has none |
| Generate.OutputNameOfPath | auto_proto_doc/generate.py:42 | `dir/base.ext` is named `base.md` |
| Generate.OutputNameTopLevel | auto_proto_doc/generate.py:42 | a name without a directory, `base.ext`, is named `base.md` |
| Generate.OutputNameExample | auto_proto_doc/generate.py:42 | `a/b.proto` is named `b.md` |
| Generate.OutputNameHasNoDirectory | auto_proto_doc/generate.py:42 | an output name ends in `.md` and has no `/` before it |
| Generate.OutputNameDotInDirectory | auto_proto_doc/generate.py:42 | the extension is cut before the directory, so `a.b/c` is named `a.md` |
| Generate.LibraryFileIff | auto_proto_doc/generate.py:38 | a file is skipped exactly when its first six characters spell "google" in any mix of letter cases |
| Generate.KeptExactly | auto_proto_doc/generate.py:36-39 | the files kept are, in increasing order, exactly those that are not library files |
| Generate.CollectStops | auto_proto_doc/generate.py:36-43 | the first file whose description raises stops the loop |
| Generate.CollectOk | auto_proto_doc/generate.py:36-43 | the loop succeeds exactly when every file's contribution does |
| Generate.CollectStep | auto_proto_doc/generate.py:40-43 | a file that succeeds appends its outputs |
| Generate.CollectFails | auto_proto_doc/generate.py:40 | a file that raises after successful ones makes the loop raise its error |
| Generate.EntriesPrefix | auto_proto_doc/generate.py:36 | the contributions of a prefix of the files are a prefix of the contributions |
| Generate.DescribeAllOk | auto_proto_doc/generate.py:36-43 | describing succeeds exactly when no kept file raises |
| Generate.DescribeAllEntries | auto_proto_doc/generate.py:36-43 | output j is the kept file j, named by the output-name rule and described from its own proto_file's locations |
| Generate.GeneratedEntries | auto_proto_doc/generate.py:15-45 | `generate` succeeds exactly when every file builds and no kept file raises while being described; it emits, in request order, exactly the non-library files, each named `<base>.md` and described from its own locations |
| Generate.GeneratedQuiet | auto_proto_doc/generate.py:31-40 | every emitted tree equals the built tree except for descriptions, and has no service or enum-value description |
| Generate.OutputsViewAppend | auto_proto_doc/generate.py:41-43 | adding an output adds its view |
| Generate.Emit | auto_proto_doc/generate.py:40-43 | a kept file is described and, if that succeeds, added to the response under its output name |
| Generate.DescribeAt | auto_proto_doc/generate.py:36-43 | one iteration of the loop keeps the outputs equal to the specification's on the files so far, or the error is the loop's |
| Generate.DescribeFiles | auto_proto_doc/generate.py:36-43 | the loop over the built files returns outputs whose views are `DescribeAll` of the old trees, or its error |
| Generate.Generate | auto_proto_doc/generate.py:15-45 | `generate` returns outputs whose views are `Generated(req)`, or its error |
| LegacyDoc.MessageRouting | model.py:43-50 | a short path describes the message; a field path with an index inside the list (negative ones counting from the end) changes only that field, its description only when the rest of the path is shorter than 2; an index outside raises IndexError; every other tag, nested_type included, changes nothing |
| LegacyDoc.FileRouting | model.py:86-95 | a short path or an unknown tag changes nothing; an index outside the messages, services or enums raises IndexError; an index inside (negative ones from the end) hands the rest of the path to that element, the file fails exactly when it fails and with its error, and on success only that element is replaced by its result |
| LegacyDoc.MessageShape | model.py:43-50 | describing a legacy message changes descriptions only |
| LegacyDoc.FileShape | model.py:86-95 | describing a legacy file changes descriptions only |
| LegacyDoc.FileOverwrite | model.py:86-95 | the later of two descriptions along the same path wins |
| LegacyDoc.FileStaysQuiet | model.py:71-76 | no path gives a Service or an enum value a description |
| LegacyDoc.FieldTable | model.py:164-171 | a legacy field builds exactly for the named codes and MESSAGE, with the keyword or type name and the primitive flag of the other builder, and fails with the same errors |
| LegacyDoc.FieldsStop | model.py:164-171 | the first field that raises stops the message |
| LegacyDoc.MessagesStop | model.py:161-171 | the first message that raises stops the file |
| LegacyDoc.FilesStop | model.py:158-181 | the first file that raises stops `build_files` |
| LegacyDoc.FieldsAt | model.py:164-171 | the field list builds exactly when every field does, element i being field i |
| LegacyDoc.MessageFlat | model.py:161-171 | a message keeps its name, has one field per declaration in a single flat list, and no sub_messages |
| LegacyDoc.MessageIgnores | model.py:161-171 | labels, oneof membership, nested types, enums and oneof declarations play no part in the legacy message |
| LegacyDoc.PlainFieldsFail | model.py:164-171 | a field's label and oneof index play no part in whether it builds |
| LegacyDoc.MessagesAt | model.py:161-171 | the message list builds exactly when every message does, element i being message i |
| LegacyDoc.FileMirrors | model.py:156-183 | a file builds exactly when its messages do; it keeps the name and one entry per message, enum (with blank values) and service (with blank RPCs) in order |
| LegacyDoc.FilesAt | model.py:156-183 | one file per proto_file in request order, with the same names |
| LegacyDoc.BuiltQuiet | model.py:172-181 | freshly built services and enum values have no description |
| Legacy.MessageField.constructor | model.py:24-29 | a new field has the given name, type and flag and an empty description |
| Legacy.MessageField.AddDescription | model.py:31-33 | the field takes the description exactly when the path is shorter than 2 |
| Legacy.Message.constructor | model.py:36-41 | a new message holds the given fields, no sub_messages and an empty description |
| Legacy.Message.AddDescription | model.py:43-50 | the message's new state is `LegacyDoc.MessageAddDescription` of its old state, and an IndexError leaves it unchanged |
| Legacy.File.constructor | model.py:79-84 | a new file holds the given messages, services and enums |
| Legacy.File.AddDescription | model.py:86-95 | the file's new state is `LegacyDoc.FileAddDescription` of its old state, and an error changes nothing |
| Legacy.File.DescribeMessage | model.py:90-91 | the view changes at message k exactly as `LegacyDoc.MessageAddDescription` says |
| Legacy.File.DescribeService | model.py:92-93 | the view changes at service k only |
| Legacy.File.DescribeEnum | model.py:94-95 | the view changes at enum k only |
| Legacy.MakeField | model.py:165-171 | the new field object views as `LegacyDoc.MakeField`, or its error is returned |
| Legacy.MakeMessage | model.py:162-171 | the new message views as `LegacyDoc.MakeMessage`, or its error is returned |
| Legacy.MakeMessages | model.py:161-171 | fresh disjoint messages viewing as `LegacyDoc.MakeMessages` |
| Legacy.AssembleFile | model.py:159-160 | the file object made from its parts views as the file of those parts' views |
| Legacy.BuildFile | model.py:159-181 | one iteration of `build_files` makes a fresh file whose view is `LegacyDoc.BuildFile` |
| Legacy.BuildFiles | model.py:156-183 | `build_files` makes fresh disjoint files whose views are `LegacyDoc.BuildFiles`, or returns its error |

## Left out

- Reading the request from standard input, parsing it, writing the response, and rendering with the jinja template are not modelled. `generate` returns the file names and the described trees that the template would be rendered with.
- The other scripts of the repository (makedoc.py, makejson.py, parsecomments.py, dump.py, read.py, what.py, index.js) are not part of this model. Neither are their own file filters and output extensions.
- Model.Message.MakeMessageIn: objects are not allocated in the source's order. Fields and groups are made before the message that holds them, because a class's lists are fixed when it is constructed, and allocation order cannot be observed.
- Legacy.MakeMessage: likewise, fields are made before the message, which the source appends to after creating it.
- The `FieldType` API that tests/test_model_regression.py expects is not part of this model. Neither is `fs[0] == exp` comparing descriptions, because model.py has no `FieldType`. Build.RegressionMessage states what `_make_message` does for that message.
- Generate.IsLibraryFile: `str.lower` is modelled for ASCII letters only. Unicode case mapping is not modelled.
- Generate.Generate: when describing raises, the error is returned and the partially described trees are not. The Python plugin then exits without writing a response.
- Legacy.Message: `sub_messages` is never filled by the legacy `build_files`, so the class keeps it empty as an invariant. A legacy tree with sub-messages cannot be built and is not modelled.
- `Message.descendants` is modelled as a function on values (`Doc.Descendants`) only: in the source it is a generator, and nothing in the core calls it.
