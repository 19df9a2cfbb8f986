# cxml `Writer` in Dafny

This project models the XML writer of cxml: the `Writer` class of
`src/writer/Writer.ts`. The class is a stream transform. It turns chunks of parser
output into XML text. It has two parts, and the model covers both:

- **The prefix allocator, `copyPrefixes`.** It gets the namespace list, indexed by
  namespace id.
  - Every slot of the list gets a prefix.
  - Named namespaces keep their preferred prefix, or take it followed by the first
    free number from 2.
  - Unnamed namespaces and holes take `p1`, `p2`, … from one shared counter.
  - It builds the root `xmlns:` declaration string, then appends `:` to every prefix
    of the list.
- **The serializer, `transform`.** It is a state machine over one chunk: structural
  tokens (start tag, end of start tag, end tag, attribute name, comment, namespace
  list) and primitive values. It emits a list of text parts. Four fields carry
  across chunks: `state`, `depth`, `indent` and `nsElement`. `_transform` joins the
  parts and counts the chunk.

Files:

- `wrappers.dfy`: `Option`.
- `decimal.dfy`: how a counter is written in decimal, and its inverse.
- `joining.dfy`: `Array.prototype.join('')` on a list of strings, with the
  lemmas that split a join.
- `prefixes.dfy`: the meaning of `copyPrefixes`, as functions over the prefix list
  and the claimed-prefix table, with its properties.
- `writer.dfy`:
  - the entry datatype and the indentation;
  - `Step`, `Run` and `Feed`, the meaning of one entry, of one chunk and of one
    stream write;
  - the class `Writer`, with the fields of the source and the methods `CopyPrefixes`,
    `Transform` and `Write`, each proved to compute those functions. The body of the
    loop of `transform`, the `switch` over one entry, is the method `Apply`, which
    `Transform` calls once per entry on its local copies of the carried fields;
  - lemmas about entries and chunks.
- `rendering.dfy`: an independent reference.
  - It defines a tree of elements and attributes, the entries such a tree produces,
    and a direct rendering of the tree as indented text.
  - It proves that the serializer writes exactly that rendering.

Modelling choices:

- Namespaces are `(id, uri, defaultPrefix)`. The identity test `member.ns == nsElement`
  compares ids.
- A hole in the namespace list is `None`. An empty `defaultPrefix` and a hole are
  both falsy, so both mean "unnamed".
- Reading an array slot that was never written gives the string `undefined`, as in
  JavaScript. This covers `prefixList[id]` before allocation. Writing past the end of
  an array leaves holes that read as `undefined` (`Put`).
- `indentPattern.substr(0, depth)` is modelled with JavaScript's clamping. A depth of
  0 or less gives `""`. A depth past 256 gives the whole 256-character pattern.
- A chunk is a buffer of entries plus the count stored in `chunk[0]`.
- `prefixTbl` is a `map<string, nat>`. Its values are slot index plus one, so they
  are always truthy, and "claimed" is map membership.

Quirks of the code that the model keeps as written:

- A fresh writer starts at depth 1 (Writer.ts:198). Root declarations are written
  only by a start tag met at depth 0 (line 48). So a balanced document fed to a
  fresh writer never gets its `xmlns:` declarations (`Rendering.DocumentText`,
  `Rendering.DocumentExample`).
- The indent starts as `''` (line 199). The root start tag therefore has no leading
  newline.
- A value read in the comment state writes `indent + '<!--' + value` and stays in
  that state. No `-->` is ever written.
- Every namespace list in the first chunk runs the allocator again on top of the
  table left by the earlier ones. A repeated list moves its namespaces to new
  prefixes (`Writer.NamespaceListRepeated`).
- The declaration string tests whether the namespace list has an entry at the slot
  (line 186), not whether the entry has a URI.
- Nothing is checked: an end tag at depth 0 makes the depth negative, and deep
  nesting clamps the indentation.

## Model

| member | source | states |
|---|---|---|
| Decimal.Str | src/writer/Writer.ts:161 | `'' + n` for a counter: at least one decimal digit, two or more exactly when `n >= 10`, and a leading `0` only for 0 itself |
| Decimal.ParseStr | src/writer/Writer.ts:161 | reading the decimal text of a counter back gives the counter |
| Decimal.StrInjective | src/writer/Writer.ts:178 | two counters have the same text if and only if they are equal, so each probe step tries a new candidate |
| Prefixes.Put | src/writer/Writer.ts:165 | `this.prefixList[i] = p`: the list grows to `i + 1` if needed, slot `i` holds `p`, and every other slot keeps its value |
| Prefixes.FirstFree | src/writer/Writer.ts:158-162 | where a `do … while(prefixTbl[prefix])` probe from `k` stops: at a number `>= k` whose candidate is unclaimed; it terminates because the claimed set is finite |
| Prefixes.FirstFreeIsFirst | src/writer/Writer.ts:160-162 | every candidate the probe passes over is claimed, so the probe stops at the first free one |
| Prefixes.NamedClaim | src/writer/Writer.ts:154-163 | a named slot's claim is unclaimed and starts with its hint, and it equals the hint exactly when the hint is unclaimed |
| Prefixes.Allocate | src/writer/Writer.ts:145-194 | the whole of `copyPrefixes` on the current prefix list and table: the resulting list reaches at least to the end of the namespace list (that slots past it keep their values is `Prefixes.AllocateDistinct`) |
| Prefixes.NamedKeepsSlot | src/writer/Writer.ts:153-167 | the named pass leaves unnamed slots and slots past the list unchanged |
| Prefixes.NamedKeepsKey | src/writer/Writer.ts:157-166 | the named pass never changes a claimed entry of the table |
| Prefixes.NamedSlotClaim | src/writer/Writer.ts:153-167 | a named slot holds the claim it made when visited, and the table records it under the slot index plus one |
| Prefixes.NamedClaimIsNew | src/writer/Writer.ts:157-163 | a named slot's claim was not claimed before the call |
| Prefixes.NamedKeyOwner | src/writer/Writer.ts:165-166 | every table entry the named pass adds points to a named slot that holds that prefix |
| Prefixes.NamedLength | src/writer/Writer.ts:153-167 | the named pass never shrinks the prefix list and does not grow it past the namespace list |
| Prefixes.UnnamedLength | src/writer/Writer.ts:173-183 | the unnamed pass never shrinks the prefix list and does not grow it past the namespace list |
| Prefixes.UnnamedKeepsSlot | src/writer/Writer.ts:173-183 | the unnamed pass leaves named slots and slots past the list unchanged |
| Prefixes.UnnamedKeepsKey | src/writer/Writer.ts:177-182 | the unnamed pass never changes a claimed entry of the table |
| Prefixes.UnnamedSlotClaim | src/writer/Writer.ts:173-183 | an unnamed slot holds `p` followed by the counter value it left, recorded under its index plus one |
| Prefixes.UnnamedClaimIsNew | src/writer/Writer.ts:177-179 | an unnamed slot moves the shared counter strictly forward, and its prefix was not claimed before the call |
| Prefixes.UnnamedCounterGrows | src/writer/Writer.ts:169-183 | the shared counter never goes down from slot to slot |
| Prefixes.PassesCover | src/writer/Writer.ts:153-183 | after both passes the prefix list reaches the end of the namespace list |
| Prefixes.NamedSlot | src/writer/Writer.ts:153-167 | in the final list a named slot holds its claim plus `:`, owns it in the table, and the claim was not taken before |
| Prefixes.UnnamedSlot | src/writer/Writer.ts:169-183 | in the final list an unnamed slot holds `p`, its counter value and `:`, owns it in the table, and the prefix was not taken before |
| Prefixes.SlotOwned | src/writer/Writer.ts:153-193 | every slot of the list ends with a prefix ending in `:` whose stem the table records under that slot and that was unclaimed before |
| Prefixes.AllocateDistinct | src/writer/Writer.ts:145-194 | every slot of the list gets its own prefix: all prefixes end in `:`, are recorded under their slot, and are pairwise distinct; slots past the list and earlier table entries are unchanged |
| Prefixes.AllocateKeepsNonEmpty | src/writer/Writer.ts:153-193 | allocation never leaves an empty prefix |
| Prefixes.StripColonsUndoes | src/writer/Writer.ts:191-193 | removing the last character of each prefix of the list undoes the colon loop |
| Prefixes.AllocateDeclarations | src/writer/Writer.ts:185-193 | the declaration string is built from the prefixes as they were before the `:` was added |
| Prefixes.AllocateUnnamedNumbers | src/writer/Writer.ts:169-183 | each unnamed slot gets `p`, a number of at least 1 and `:`, and the numbers strictly increase with the slot index |
| Prefixes.UnnamedOrder | src/writer/Writer.ts:169-183 | of two unnamed slots, the earlier one carries the smaller number |
| Prefixes.UnnamedNumber | src/writer/Writer.ts:177-181 | an unnamed slot's number is the counter value it left behind, which is larger than the one it found |
| Prefixes.ClaimedBefore | src/writer/Writer.ts:157-166 | on a fresh writer, each string claimed before slot `i` is, with a `:`, the final prefix of an earlier slot |
| Prefixes.AllocateHints | src/writer/Writer.ts:153-167 | on a fresh writer, a named slot's prefix starts with its hint; it is exactly the hint plus `:` if and only if no earlier slot has that; otherwise it is the hint plus the smallest `k >= 2` whose candidate no earlier slot holds |
| Prefixes.DeclarationsInOrder | src/writer/Writer.ts:185-189 | the declaration string is the declarations of the slots before `i`, then that of slot `i`, then those of the slots after it |
| Prefixes.DeclarationsPastList | src/writer/Writer.ts:186-188 | slots past the namespace list add nothing to the declarations |
| Prefixes.ExampleNamedPass | src/writer/Writer.ts:153-167 | hints `a`, `a`, none, none: the named pass claims `a` and `a2` |
| Prefixes.ExampleUnnamedPass | src/writer/Writer.ts:169-183 | then the unnamed pass claims `p1` and `p2` |
| Prefixes.ExampleDeclarations | src/writer/Writer.ts:185-189 | the declarations of that example are the four `xmlns:` attributes in slot order |
| Prefixes.ExampleColons | src/writer/Writer.ts:191-193 | the colon loop turns `a`, `a2`, `p1`, `p2` into `a:`, `a2:`, `p1:`, `p2:` |
| Prefixes.AllocateExample | src/writer/Writer.ts:145-194 | hints `a`, `a`, none, none give `a:`, `a2:`, `p1:`, `p2:` and the four declarations |
| Prefixes.SingleExample | src/writer/Writer.ts:169-193 | one unnamed namespace gets `p1:` |
| Prefixes.AllocateOnceExample | src/writer/Writer.ts:145-194 | on a fresh writer a list preferring `a` gets `a:`, recorded under slot 1 |
| Prefixes.AllocateAgainExample | src/writer/Writer.ts:153-167 | allocating that list again on top of the table it left gives `a2:` |
| Writer.Tabs | src/writer/Writer.ts:15 | the tab run of the indentation pattern: `n` tabs |
| Writer.Indent | src/writer/Writer.ts:15 | `indentPattern.substr(0, depth)`: empty for depth at most 0, a newline and `depth - 1` tabs for depth 1 to 256, the whole pattern beyond |
| Writer.Writer.constructor | src/writer/Writer.ts:196-203 | a new writer: no chunks, `TEXT` state, depth 1, empty indent, no element namespace, nothing allocated |
| Writer.Writer.Probe | src/writer/Writer.ts:158-162 | the probing loop stops at the first free number from its start |
| Writer.Writer.ClaimNamed | src/writer/Writer.ts:153-167 | the named loop leaves the prefix list and table the named pass describes |
| Writer.Writer.ClaimUnnamed | src/writer/Writer.ts:169-183 | the unnamed loop leaves the prefix list and table the unnamed pass describes |
| Writer.Writer.AppendColons | src/writer/Writer.ts:191-193 | the colon loop appends `:` to the first `n` prefixes and touches nothing else |
| Writer.Writer.CopyPrefixes | src/writer/Writer.ts:145-194 | `copyPrefixes` leaves exactly the prefix list, table and declarations of `Allocate`, and no other field changes |
| Writer.Writer.Transform | src/writer/Writer.ts:22-127 | `transform` returns the parts `Run` gives for the chunk's entries and leaves the writer `Run` describes; the chunk count is unchanged |
| Writer.Writer.Apply | src/writer/Writer.ts:41-118 | one pass of the loop of `transform` writes the parts `Step` gives for the entry and leaves the carried fields and prefixes `Step` describes |
| Writer.Writer.Write | src/writer/Writer.ts:129-139 | `_transform` writes the joined parts and counts one more chunk, as `Feed` describes |
| Writer.OpenStep | src/writer/Writer.ts:43-52 | a start tag writes indent, `<`, prefix and name; the declarations follow as a second part exactly when the depth was 0; the writer enters the element one level deeper |
| Writer.CloseStep | src/writer/Writer.ts:61-74 | an end tag goes one level up and ends in `TEXT`; it writes exactly `/>` if and only if the state was `ELEMENT`; otherwise it ends with the end tag, preceded by the new indent exactly when the state was not `AFTER_TEXT` |
| Writer.AttributeStep | src/writer/Writer.ts:76-85 | an attribute name is written as ` prefix name=`, without a prefix exactly when its namespace is the element's; nothing else changes |
| Writer.ValueStep | src/writer/Writer.ts:100-117 | a value is quoted in `ELEMENT`, written as is in `TEXT` (moving to `AFTER_TEXT`), opens a comment in `COMMENT`, and is dropped exactly in `AFTER_TEXT` and `PROCESSING` |
| Writer.NamespaceStep | src/writer/Writer.ts:92-97 | a namespace list writes nothing; it allocates prefixes only while the chunk count is 0 |
| Writer.RunAppend | src/writer/Writer.ts:37-39 | running two pieces of a chunk in turn is running them together |
| Joining.JoinAppend | src/writer/Writer.ts:136 | joining the parts of two pieces gives the two texts one after the other |
| Writer.RunJoin | src/writer/Writer.ts:37-39 | the text of `a + b` is the text of `a` followed by the text `b` writes from where `a` left the writer |
| Writer.RunDepth | src/writer/Writer.ts:49 | over a chunk the depth moves by the number of start tags minus the number of end tags |
| Writer.RunIndent | src/writer/Writer.ts:64 | once a tag has been met, the indent is always the one the depth calls for |
| Writer.StepIndent | src/writer/Writer.ts:49 | a tag makes the indent follow the depth, and other entries keep it so |
| Writer.RunNeverProcessing | src/writer/Writer.ts:41-118 | no entry leads into the `PROCESSING` state |
| Writer.RunKeepsPrefixes | src/writer/Writer.ts:94-96 | a chunk never changes the chunk count, and it changes prefixes or declarations only through a namespace list in the first chunk |
| Writer.RunKeepsPrefixesNonEmpty | src/writer/Writer.ts:81-82 | prefixes stay non-empty whatever is fed, so an attribute loses its prefix only through the namespace test |
| Writer.RunCountIndependent | src/writer/Writer.ts:94 | the chunk count matters only to namespace lists, and only through being zero or not |
| Writer.FeedCompose | src/writer/Writer.ts:22-27 | feeding `a` then `b` writes the same text as feeding `a + b`, and leaves the same writer with one more chunk counted, unless `b` holds a namespace list the first chunk would honour |
| Writer.NamespaceListRepeated | src/writer/Writer.ts:92-97 | a list repeated in the first chunk moves `a` to `a2`; the same list in a later chunk changes nothing |
| Rendering.RunAttribute | src/writer/Writer.ts:76-85 | inside a start tag an attribute name and its value write ` name="value"`, with the prefix rule, and leave the writer as it was |
| Rendering.RunAttributes | src/writer/Writer.ts:107-110 | inside a start tag a list of attributes writes their texts in order and leaves the writer as it was |
| Rendering.RunStartTag | src/writer/Writer.ts:43-52 | a start tag writes the start text at the writer's indent and depth |
| Rendering.RunElementEnd | src/writer/Writer.ts:54-74 | after the attributes, the rest of an element writes `/>` when it has no children; otherwise it writes `>`, the children one level in, a new line at the element's depth, and the end tag |
| Rendering.RunNode | src/writer/Writer.ts:22-127 | from any writer, the entries of an element write exactly its reference rendering and leave the writer between tags at the same depth with the matching indent, prefixes untouched |
| Rendering.RunChildren | src/writer/Writer.ts:37-119 | between tags, a list of child elements writes their renderings one after another |
| Rendering.NodeWithoutDeclarations | src/writer/Writer.ts:48 | from depth 1 down the root declarations are never written: the rendering is the same whatever the declaration string is |
| Rendering.ChildrenWithoutDeclarations | src/writer/Writer.ts:48 | the same for a list of children |
| Rendering.DocumentText | src/writer/Writer.ts:196-199 | a fresh writer fed a namespace list and a root element writes the rendering at depth 1 from an empty indent, with the allocated prefixes and without declarations |
| Rendering.ExampleTokens | src/writer/Writer.ts:22-127 | the example tree produces the entries open root, attribute `x`, value `5`, end of start tag, open child, close child, close root |
| Rendering.ExampleText | src/writer/Writer.ts:22-127 | the rendering of the example tree at depth 1 |
| Rendering.DocumentExample | src/writer/Writer.ts:22-139 | the example document comes out as `<p1:root x="5">`, then a new line, a tab and `<p1:child/>`, then a new line and `</p1:root>` |

## Left out

- Stream plumbing (Writer.ts:17-20, 129-133, 141-143) is not modelled: the `stream.Transform` base class, `Buffer` construction, the `null` chunk path of `_transform` and `_flush`, which writes a final newline. `Write` returns the text `_transform` hands to the flush callback.
- The `Token`, `MemberToken`, `NamespaceToken`, `TokenBuffer` and `Namespace` classes are not part of this model. Their `instanceof` dispatch becomes the `Entry` datatype, and token kinds other than the six `transform` handles fall outside it.
- Decimal.Str: writes every natural number in plain decimal. JavaScript writes numbers from 1e21 up in exponent notation and loses integer precision past 2^53; the prefix counters never come near either bound.
- Rendering.RunNode: the reference tree has elements and attributes but no text or comment content, and it writes `>` only for an element with children. Three paths are therefore covered only by the one-entry lemmas `Writer.CloseStep` and `Writer.ValueStep`, not by the reference rendering: an end tag right after a text value (no indent), a comment value, and an element closed after `>` with no children (`<a>`, a new line, `</a>`).
- Primitive values are modelled as the strings they concatenate to. JavaScript's number-to-string conversion of floating-point values is not modelled. Counters use the decimal writing of naturals in `Decimal`.
- The plain-object `prefixTbl` treats inherited keys such as `constructor` as claimed. The model's map does not.
- An explicit `undefined` entry in the namespace list is not modelled; line 149 throws on one. `None` stands for a hole, which the code skips.
- Namespaces are compared by id, not by object identity. Two different `Namespace` objects with the same id would not be the same namespace in the code.
- Escaping of attribute and text values, and a closing `-->` for comments, are not added, because the code adds neither.
