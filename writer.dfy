/** The serializer half of `Writer`: a state machine that turns each chunk
    of parser output (structural tokens and primitive values) into a list
    of text parts, carrying four fields from one chunk to the next, and
    that allocates namespace prefixes while it reads the first chunk. */
module Writer {
  import opened Wrappers
  import opened Decimal
  import opened Prefixes
  import opened Joining

  /** Where the serializer is: inside a start tag, between tags, right
      after a text value, or inside a comment. `Processing` is declared by
      the source but no transition enters it. */
  datatype State = Element | Processing | Text | AfterText | Comment

  /** A qualified name: the id of its namespace and its local name. */
  datatype Member = Member(ns: nat, name: string)

  /** One entry of a chunk: a structural token or a primitive value (given
      as the text JavaScript would concatenate). */
  datatype Entry =
    | Open(member: Member)
    | Emitted
    | Close(member: Member)
    | AttributeName(member: Member)
    | CommentStart
    | NamespaceList(list: seq<Option<Namespace>>)
    | Value(text: string)

  /** `n` tab characters. */
  function Tabs(n: nat): (s: string)
    ensures |s| == n && forall i :: 0 <= i < n ==> s[i] == '\t'
  {
    seq(n, _ => '\t')
  }

  /** A newline followed by 255 tabs: the longest indentation there is. */
  const IndentPattern: string := "\n" + Tabs(255)

  /** `indentPattern.substr(0, depth)`: a length below zero gives the empty
      string and a length past the end gives the whole pattern. */
  function Indent(depth: int): (s: string)
    ensures depth <= 0 ==> s == ""
    ensures 1 <= depth <= 256 ==> s == "\n" + Tabs(depth - 1)
    ensures depth > 256 ==> s == "\n" + Tabs(255)
  {
    if depth <= 0 then ""
    else if depth >= |IndentPattern| then IndentPattern
    else
      assert IndentPattern[..depth] == "\n" + Tabs(depth - 1);
      IndentPattern[..depth]
  }

  /** The four fields `transform` loads at the start of a chunk and stores
      back at its end. `nsElement` is the namespace id of the last opened
      element, `None` before the first one. */
  datatype Context = Context(state: State, depth: int, indent: string, nsElement: Option<nat>)

  /** Everything a `Writer` holds. */
  datatype Snapshot = Snapshot(
    chunkCount: nat,
    context: Context,
    prefixList: seq<string>,
    prefixTbl: map<string, nat>,
    xmlnsDefinitions: string)

  /** A fresh writer: in `Text` state at depth 1 with an empty indent, and
      nothing allocated. */
  const Initial: Snapshot := Snapshot(0, Context(Text, 1, "", None), [], map[], "")

  /** The prefix (with its ':') a member is written with. */
  function PrefixOf(w: Snapshot, m: Member): string {
    PrefixAt(w.prefixList, m.ns)
  }

  /** The closing tag of a member. */
  function EndTag(w: Snapshot, m: Member): string {
    "</" + PrefixOf(w, m) + m.name + ">"
  }

  /** One entry: the writer after it and the parts it emits. */
  function Step(w: Snapshot, e: Entry): (Snapshot, seq<string>) {
    var c := w.context;
    match e
    case Open(m) =>
      var tag := [c.indent + "<" + PrefixOf(w, m) + m.name];
      var parts := if c.depth == 0 then tag + [w.xmlnsDefinitions] else tag;
      (w.(context := Context(Element, c.depth + 1, Indent(c.depth + 1), Some(m.ns))), parts)
    case Emitted =>
      (w.(context := c.(state := Text)), [">"])
    case Close(m) =>
      var indent := Indent(c.depth - 1);
      var parts :=
        if c.state == Element then ["/>"]
        else if c.state == AfterText then [EndTag(w, m)]
        else [indent, EndTag(w, m)];
      (w.(context := c.(state := Text, depth := c.depth - 1, indent := indent)), parts)
    case AttributeName(m) =>
      var prefix := if c.nsElement == Some(m.ns) then "" else PrefixOf(w, m);
      (w, [" " + prefix + m.name + "="])
    case CommentStart =>
      (w.(context := c.(state := Comment)), [])
    case NamespaceList(list) =>
      if w.chunkCount == 0 then
        var a := Allocate(list, w.prefixList, w.prefixTbl);
        (w.(prefixList := a.prefixList, prefixTbl := a.table, xmlnsDefinitions := a.declarations), [])
      else (w, [])
    case Value(v) =>
      match c.state
      case Text => (w.(context := c.(state := AfterText)), [v])
      case Element => (w, ["\"" + v + "\""])
      case Comment => (w, [c.indent + "<!--" + v])
      case _ => (w, [])
  }

  /** The entries of one chunk in order: the writer after them and all the
      parts they emit. */
  function Run(w: Snapshot, entries: seq<Entry>): (Snapshot, seq<string>)
    decreases |entries|
  {
    if entries == [] then (w, [])
    else
      var first := Step(w, entries[0]);
      var rest := Run(first.0, entries[1..]);
      (rest.0, first.1 + rest.1)
  }

  /** What the stream does with one chunk: transform it, write the joined
      parts, and count the chunk. */
  function Feed(w: Snapshot, entries: seq<Entry>): (Snapshot, string) {
    var r := Run(w, entries);
    (r.0.(chunkCount := r.0.chunkCount + 1), Join(r.1))
  }

  /** The serializer object, with the fields of the source. */
  class Writer {
    var chunkCount: nat
    var state: State
    var depth: int
    var indent: string
    var nsElement: Option<nat>
    var prefixList: seq<string>
    var prefixTbl: map<string, nat>
    var xmlnsDefinitions: string

    function View(): Snapshot
      reads this
    {
      Snapshot(chunkCount, Context(state, depth, indent, nsElement), prefixList, prefixTbl, xmlnsDefinitions)
    }

    constructor()
      ensures View() == Initial
    {
      chunkCount := 0;
      state := Text;
      depth := 1;
      indent := "";
      nsElement := None;
      prefixList := [];
      prefixTbl := map[];
      xmlnsDefinitions := "";
    }

    /** The `do ... while(prefixTbl[prefix])` probe: counts upward from
        `from` until `base` followed by the count is unclaimed. */
    method Probe(base: string, from: nat) returns (n: nat)
      ensures n == FirstFree(prefixTbl, base, from)
    {
      n := from;
      while base + Str(n) in prefixTbl
        invariant from <= n
        invariant FirstFree(prefixTbl, base, n) == FirstFree(prefixTbl, base, from)
        decreases Suffixed(prefixTbl.Keys, base, n)
      {
        SuffixedShrinks(prefixTbl.Keys, base, n);
        n := n + 1;
      }
    }

    /** The first pass of `copyPrefixes`: each named slot, in index order,
        claims its preferred prefix or, when that is taken, the preferred
        prefix followed by the first free number from 2. */
    method ClaimNamed(hints: seq<string>)
      modifies this`prefixList, this`prefixTbl
      ensures Claims(prefixList, prefixTbl) == Named(hints, |hints|, old(Claims(prefixList, prefixTbl)))
    {
      ghost var start := Claims(prefixList, prefixTbl);
      var i := 0;
      while i < |hints|
        invariant 0 <= i <= |hints|
        invariant Claims(prefixList, prefixTbl) == Named(hints, i, start)
      {
        ghost var c := Claims(prefixList, prefixTbl);
        var prefix := hints[i];
        if prefix != "" {
          if prefix in prefixTbl {
            var j := Probe(prefix, 2);
            prefix := prefix + Str(j);
          }
          assert prefix == NamedClaim(c.table, hints[i]);
          prefixList := Put(prefixList, i, prefix);
          prefixTbl := prefixTbl[prefix := i + 1];
          assert Claims(prefixList, prefixTbl) == Claim(c, i, prefix);
        }
        NamedStep(hints, i, start);
        i := i + 1;
      }
    }

    /** The second pass of `copyPrefixes`: each unnamed slot, in index
        order, claims `p` followed by the first free number past a counter
        that starts at 0 and is never reset. */
    method ClaimUnnamed(hints: seq<string>)
      modifies this`prefixList, this`prefixTbl
      ensures Claims(prefixList, prefixTbl) == Unnamed(hints, |hints|, old(Claims(prefixList, prefixTbl))).0
    {
      ghost var start := Claims(prefixList, prefixTbl);
      var j := 0;
      var i := 0;
      while i < |hints|
        invariant 0 <= i <= |hints|
        invariant (Claims(prefixList, prefixTbl), j) == Unnamed(hints, i, start)
      {
        ghost var c := Claims(prefixList, prefixTbl);
        if hints[i] == "" {
          j := Probe("p", j + 1);
          var prefix := "p" + Str(j);
          prefixList := Put(prefixList, i, prefix);
          prefixTbl := prefixTbl[prefix := i + 1];
          assert Claims(prefixList, prefixTbl) == Claim(c, i, prefix);
        }
        UnnamedStep(hints, i, start);
        i := i + 1;
      }
    }

    /** The last loop of `copyPrefixes`: a ':' after each of the first `n`
        prefixes. */
    method AppendColons(n: nat)
      requires n <= |prefixList|
      modifies this`prefixList
      ensures prefixList == Colons(old(prefixList), n)
    {
      var i := 0;
      while i < n
        invariant 0 <= i <= n
        invariant prefixList == Colons(old(prefixList), i)
      {
        prefixList := prefixList[i := prefixList[i] + ":"];
        i := i + 1;
      }
    }

    /** Gives every slot of the namespace list a prefix, builds the root
        declarations and appends ':' to the prefixes of the list. */
    method CopyPrefixes(namespaceList: seq<Option<Namespace>>)
      modifies this`prefixList, this`prefixTbl, this`xmlnsDefinitions
      ensures var a := Allocate(namespaceList, old(prefixList), old(prefixTbl));
        prefixList == a.prefixList && prefixTbl == a.table && xmlnsDefinitions == a.declarations
    {
      var hints := Hints(namespaceList);
      PassesCover(hints, Claims(prefixList, prefixTbl));
      ClaimNamed(hints);
      ClaimUnnamed(hints);
      xmlnsDefinitions := Declarations(namespaceList, prefixList);
      AppendColons(|hints|);
    }

    /** `transform(chunk)`: the first `count` entries of `buffer` in order,
        through local copies of the four carried fields that are stored
        back at the end. */
    method Transform(buffer: seq<Entry>, count: nat) returns (parts: seq<string>)
      requires count <= |buffer|
      modifies this
      ensures View() == Run(old(View()), buffer[..count]).0 && parts == Run(old(View()), buffer[..count]).1
    {
      var st, d, ind, nse := state, depth, indent, nsElement;
      ghost var goal := Run(View(), buffer[..count]);
      ghost var cur := View();
      assert buffer[..count] == buffer[0..count];
      parts := [];
      var k := 0;
      while k < count
        invariant 0 <= k <= count
        invariant chunkCount == old(chunkCount)
        invariant cur == Snapshot(chunkCount, Context(st, d, ind, nse), prefixList, prefixTbl, xmlnsDefinitions)
        invariant Run(cur, buffer[k..count]).0 == goal.0 && parts + Run(cur, buffer[k..count]).1 == goal.1
      {
        assert buffer[k..count][0] == buffer[k] && buffer[k..count][1..] == buffer[k + 1..count];
        RunAdvance(cur, buffer[k..count], goal, parts);
        var next, out := Apply(buffer[k], Context(st, d, ind, nse));
        parts := parts + out;
        st, d, ind, nse := next.state, next.depth, next.indent, next.nsElement;
        cur := Step(cur, buffer[k]).0;
        k := k + 1;
      }
      assert buffer[k..count] == [];
      assert parts + [] == parts;
      state, depth, indent, nsElement := st, d, ind, nse;
    }

    /** One pass of the loop of `transform`: the parts one entry writes and
        the local copies of the carried fields it leaves, given the ones it
        found. A namespace list allocates prefixes in the first chunk only. */
    method Apply(e: Entry, c: Context) returns (next: Context, parts: seq<string>)
      modifies this`prefixList, this`prefixTbl, this`xmlnsDefinitions
      ensures var r := Step(old(View()).(context := c), e);
        View().(context := next) == r.0 && parts == r.1
    {
      var st, d, ind, nse := c.state, c.depth, c.indent, c.nsElement;
      parts := [];
      match e {
        case Open(m) =>
          nse := Some(m.ns);
          parts := parts + [ind + "<" + PrefixAt(prefixList, m.ns) + m.name];
          if d == 0 {
            parts := parts + [xmlnsDefinitions];
          }
          d := d + 1;
          ind := Indent(d);
          st := Element;
        case Emitted =>
          parts := parts + [">"];
          st := Text;
        case Close(m) =>
          d := d - 1;
          ind := Indent(d);
          if st == Element {
            parts := parts + ["/>"];
          } else {
            if st != AfterText {
              parts := parts + [ind];
            }
            parts := parts + ["</" + PrefixAt(prefixList, m.ns) + m.name + ">"];
          }
          st := Text;
        case AttributeName(m) =>
          var prefix := if nse == Some(m.ns) then "" else PrefixAt(prefixList, m.ns);
          parts := parts + [" " + prefix + m.name + "="];
        case CommentStart =>
          st := Comment;
        case NamespaceList(list) =>
          if chunkCount == 0 {
            CopyPrefixes(list);
          }
        case Value(v) =>
          match st {
            case Text =>
              parts := parts + [v];
              st := AfterText;
            case Element =>
              parts := parts + ["\"" + v + "\""];
            case Comment =>
              parts := parts + [ind + "<!--" + v];
            case _ =>
          }
      }
      next := Context(st, d, ind, nse);
    }

    /** `_transform(chunk)`: transforms the chunk, returns the joined parts
        as the text written out, and counts the chunk. */
    method Write(buffer: seq<Entry>, count: nat) returns (text: string)
      requires count <= |buffer|
      modifies this
      ensures View() == Feed(old(View()), buffer[..count]).0 && text == Feed(old(View()), buffer[..count]).1
    {
      var parts := Transform(buffer, count);
      text := Join(parts);
      chunkCount := chunkCount + 1;
    }
  }

  // ---------------------------------------------------------------------
  // What one entry does
  // ---------------------------------------------------------------------

  /** Every prefix the writer holds is non-empty. Allocated prefixes end
      with ':', so this holds from a fresh writer on. */
  ghost predicate PrefixesNonEmpty(w: Snapshot) {
    forall i :: 0 <= i < |w.prefixList| ==> w.prefixList[i] != ""
  }

  /** A start tag writes the current indent, '<', the prefix and the name;
      the root declarations follow as a part of their own exactly when the
      depth was 0; the writer moves one level down, into the start tag of
      that element. */
  lemma OpenStep(w: Snapshot, m: Member)
    ensures var r := Step(w, Open(m)); var d := w.context.depth;
      1 <= |r.1| <= 2 && r.1[0] == w.context.indent + "<" + PrefixOf(w, m) + m.name &&
      (|r.1| == 2 <==> d == 0) && (|r.1| == 2 ==> r.1[1] == w.xmlnsDefinitions) &&
      r.0.context == Context(Element, d + 1, Indent(d + 1), Some(m.ns)) &&
      r.0.(context := w.context) == w
  {
  }

  /** A close tag moves one level up and always ends between tags. It
      writes exactly "/>" when it closes the start tag still open, and
      otherwise the end tag, preceded by the new indent unless a text value
      came right before. */
  lemma CloseStep(w: Snapshot, m: Member)
    ensures var r := Step(w, Close(m)); var c := w.context;
      r.0.context == Context(Text, c.depth - 1, Indent(c.depth - 1), c.nsElement) &&
      r.0.(context := w.context) == w &&
      (r.1 == ["/>"] <==> c.state == Element) &&
      (c.state != Element ==> r.1[|r.1| - 1] == EndTag(w, m)) &&
      (|r.1| == 2 <==> c.state != Element && c.state != AfterText) &&
      (|r.1| == 2 ==> r.1[0] == Indent(c.depth - 1))
  {
    var t := EndTag(w, m);
    assert t[0] == '<';
    assert "/>"[0] == '/';
  }

  /** An attribute name is written with a leading space and a trailing
      '=', and without a prefix exactly when it is in the namespace of the
      element last opened; nothing else changes. */
  lemma AttributeStep(w: Snapshot, m: Member)
    requires PrefixesNonEmpty(w)
    ensures var r := Step(w, AttributeName(m));
      r.0 == w && |r.1| == 1 &&
      (r.1 == [" " + m.name + "="] <==> w.context.nsElement == Some(m.ns)) &&
      (w.context.nsElement != Some(m.ns) ==> r.1 == [" " + PrefixOf(w, m) + m.name + "="])
  {
    var p := PrefixOf(w, m);
    if w.context.nsElement == Some(m.ns) {
      assert " " + "" + m.name + "=" == " " + m.name + "=";
    } else {
      assert p != "";
      assert |" " + p + m.name + "="| != |" " + m.name + "="|;
    }
  }

  /** A primitive value is quoted inside a start tag, written as is
      between tags (once: the writer then ignores values until the next
      tag), opens a comment inside a comment, and is dropped otherwise. */
  lemma ValueStep(w: Snapshot, v: string)
    ensures var r := Step(w, Value(v)); var c := w.context;
      (r.1 == [] <==> c.state == AfterText || c.state == Processing) &&
      (c.state == Text ==> r.1 == [v] && r.0 == w.(context := c.(state := AfterText))) &&
      (c.state == Element ==> r.1 == ["\"" + v + "\""] && r.0 == w) &&
      (c.state == Comment ==> r.1 == [c.indent + "<!--" + v] && r.0 == w) &&
      (c.state != Text ==> r.0 == w)
  {
  }

  /** A namespace list allocates prefixes only while the first chunk is
      being read, and writes nothing. */
  lemma NamespaceStep(w: Snapshot, list: seq<Option<Namespace>>)
    ensures var r := Step(w, NamespaceList(list));
      r.1 == [] && r.0.context == w.context && r.0.chunkCount == w.chunkCount &&
      (w.chunkCount > 0 ==> r.0 == w) &&
      (w.chunkCount == 0 ==>
        var a := Allocate(list, w.prefixList, w.prefixTbl);
        r.0.prefixList == a.prefixList && r.0.prefixTbl == a.table && r.0.xmlnsDefinitions == a.declarations)
  {
  }

  // ---------------------------------------------------------------------
  // What a chunk does
  // ---------------------------------------------------------------------

  /** Start tags minus end tags. */
  function Balance(entries: seq<Entry>): int
    decreases |entries|
  {
    if entries == [] then 0
    else (match entries[0] case Open(_) => 1 case Close(_) => -1 case _ => 0) + Balance(entries[1..])
  }

  predicate IsTag(e: Entry) {
    e.Open? || e.Close?
  }

  predicate NoNamespaceLists(entries: seq<Entry>) {
    forall i :: 0 <= i < |entries| ==> !entries[i].NamespaceList?
  }

  /** The indent is the one the depth calls for. */
  predicate IndentFollowsDepth(c: Context) {
    c.indent == Indent(c.depth)
  }

  /** Running two pieces one after the other is running them together. */
  lemma {:induction false} RunAppend(w: Snapshot, a: seq<Entry>, b: seq<Entry>)
    ensures var first := Run(w, a); var second := Run(first.0, b);
      Run(w, a + b).0 == second.0 && Run(w, a + b).1 == first.1 + second.1
    decreases |a|
  {
    if a != [] {
      assert (a + b)[0] == a[0] && (a + b)[1..] == a[1..] + b;
      var s := Step(w, a[0]);
      RunAppend(s.0, a[1..], b);
      var first := Run(s.0, a[1..]);
      var second := Run(first.0, b);
      ConcatAssociates(s.1, first.1, second.1);
    } else {
      assert a + b == b;
      assert [] + Run(w, b).1 == Run(w, b).1;
    }
  }

  /** Running `a + b` writes the text of `a` and then the text of `b`. */
  lemma RunJoin(w: Snapshot, a: seq<Entry>, b: seq<Entry>)
    ensures var first := Run(w, a); var second := Run(first.0, b);
      Run(w, a + b).0 == second.0 && Join(Run(w, a + b).1) == Join(first.1) + Join(second.1)
  {
    var first := Run(w, a);
    var second := Run(first.0, b);
    var whole := Run(w, a + b);
    RunAppend(w, a, b);
    assert whole.0 == second.0 && whole.1 == first.1 + second.1;
    JoinAppend(first.1, second.1);
  }

  lemma RunSingle(w: Snapshot, e: Entry)
    ensures Run(w, [e]).0 == Step(w, e).0 && Run(w, [e]).1 == Step(w, e).1
  {
    assert [e][1..] == [];
    assert Step(w, e).1 + [] == Step(w, e).1;
  }

  /** Taking one entry off the front of what is left to run moves its parts
      over to what has been written. */
  lemma RunAdvance(w: Snapshot, entries: seq<Entry>, goal: (Snapshot, seq<string>), parts: seq<string>)
    requires entries != []
    requires Run(w, entries).0 == goal.0 && parts + Run(w, entries).1 == goal.1
    ensures var next := Step(w, entries[0]);
      Run(next.0, entries[1..]).0 == goal.0 && (parts + next.1) + Run(next.0, entries[1..]).1 == goal.1
  {
    var next := Step(w, entries[0]);
    ConcatAssociates(parts, next.1, Run(next.0, entries[1..]).1);
  }

  /** The depth moves by one for each start tag and back by one for each
      end tag, and by nothing else. */
  lemma {:induction false} RunDepth(w: Snapshot, entries: seq<Entry>)
    ensures Run(w, entries).0.context.depth == w.context.depth + Balance(entries)
    decreases |entries|
  {
    if entries != [] {
      RunDepth(Step(w, entries[0]).0, entries[1..]);
    }
  }

  /** Once a tag has been met, the indent is always the one the depth calls
      for, and entries other than tags keep it so. (A fresh writer starts
      with an empty indent at depth 1, which does not.) */
  lemma {:induction false} RunIndent(w: Snapshot, entries: seq<Entry>)
    requires IndentFollowsDepth(w.context) || exists i :: 0 <= i < |entries| && IsTag(entries[i])
    ensures IndentFollowsDepth(Run(w, entries).0.context)
    decreases |entries|
  {
    if entries != [] {
      var next := Step(w, entries[0]).0;
      if IndentFollowsDepth(w.context) || IsTag(entries[0]) {
        StepIndent(w, entries[0]);
      } else {
        var i :| 0 <= i < |entries| && IsTag(entries[i]);
        assert entries[1..][i - 1] == entries[i];
      }
      RunIndent(next, entries[1..]);
    }
  }

  lemma StepIndent(w: Snapshot, e: Entry)
    requires IndentFollowsDepth(w.context) || IsTag(e)
    ensures IndentFollowsDepth(Step(w, e).0.context)
  {
  }

  /** No entry leads into the `Processing` state. */
  lemma {:induction false} RunNeverProcessing(w: Snapshot, entries: seq<Entry>)
    requires w.context.state != Processing
    ensures Run(w, entries).0.context.state != Processing
    decreases |entries|
  {
    if entries != [] {
      RunNeverProcessing(Step(w, entries[0]).0, entries[1..]);
    }
  }

  /** A chunk never changes the chunk count, and changes the prefixes and
      the root declarations only through a namespace list met while the
      first chunk is read. */
  lemma {:induction false} RunKeepsPrefixes(w: Snapshot, entries: seq<Entry>)
    ensures Run(w, entries).0.chunkCount == w.chunkCount
    ensures w.chunkCount > 0 || NoNamespaceLists(entries) ==>
      var r := Run(w, entries).0;
      r.prefixList == w.prefixList && r.prefixTbl == w.prefixTbl && r.xmlnsDefinitions == w.xmlnsDefinitions
    decreases |entries|
  {
    if entries != [] {
      var next := Step(w, entries[0]).0;
      assert next.chunkCount == w.chunkCount;
      if NoNamespaceLists(entries) {
        NoNamespaceListsTail(entries);
      }
      if w.chunkCount > 0 || NoNamespaceLists(entries) {
        assert next.prefixList == w.prefixList && next.prefixTbl == w.prefixTbl && next.xmlnsDefinitions == w.xmlnsDefinitions;
      }
      RunKeepsPrefixes(next, entries[1..]);
    }
  }

  lemma NoNamespaceListsTail(entries: seq<Entry>)
    requires entries != [] && NoNamespaceLists(entries)
    ensures !entries[0].NamespaceList? && NoNamespaceLists(entries[1..])
  {
    forall i | 0 <= i < |entries| - 1 ensures !entries[1..][i].NamespaceList? {
      assert entries[1..][i] == entries[i + 1];
    }
  }

  /** Prefixes stay non-empty whatever the writer is fed. */
  lemma {:induction false} RunKeepsPrefixesNonEmpty(w: Snapshot, entries: seq<Entry>)
    requires PrefixesNonEmpty(w)
    ensures PrefixesNonEmpty(Run(w, entries).0)
    decreases |entries|
  {
    if entries != [] {
      var next := Step(w, entries[0]).0;
      if entries[0].NamespaceList? && w.chunkCount == 0 {
        AllocateKeepsNonEmpty(entries[0].list, w.prefixList, w.prefixTbl);
      }
      RunKeepsPrefixesNonEmpty(next, entries[1..]);
    }
  }

  /** The chunk count matters only to namespace lists, and only through
      being zero or not. */
  lemma {:induction false} RunCountIndependent(w: Snapshot, entries: seq<Entry>, n: nat)
    requires (w.chunkCount > 0 && n > 0) || NoNamespaceLists(entries)
    ensures var r := Run(w, entries);
      Run(w.(chunkCount := n), entries).0 == r.0.(chunkCount := n) && Run(w.(chunkCount := n), entries).1 == r.1
    decreases |entries|
  {
    if entries != [] {
      if NoNamespaceLists(entries) {
        NoNamespaceListsTail(entries);
      }
      var s := Step(w, entries[0]);
      StepCountIndependent(w, entries[0], n);
      RunCountIndependent(s.0, entries[1..], n);
    }
  }

  lemma StepCountIndependent(w: Snapshot, e: Entry, n: nat)
    requires (w.chunkCount > 0 && n > 0) || !e.NamespaceList?
    ensures Step(w.(chunkCount := n), e).0 == Step(w, e).0.(chunkCount := n) && Step(w.(chunkCount := n), e).1 == Step(w, e).1
  {
  }

  /** Chunk boundaries do not matter: feeding `a` and then `b` writes the
      text that feeding `a + b` at once writes, and leaves the same writer
      behind but for one more chunk counted, as long as `b` holds no
      namespace list that the first chunk would have honoured. */
  lemma FeedCompose(w: Snapshot, a: seq<Entry>, b: seq<Entry>)
    requires w.chunkCount > 0 || NoNamespaceLists(b)
    ensures var one := Feed(w, a); var two := Feed(one.0, b); var whole := Feed(w, a + b);
      one.1 + two.1 == whole.1 && two.0 == whole.0.(chunkCount := whole.0.chunkCount + 1)
  {
    var first := Run(w, a);
    var second := Run(first.0, b);
    var n := w.chunkCount + 1;
    var one := Feed(w, a);
    assert first.0.chunkCount == w.chunkCount && second.0.chunkCount == w.chunkCount by {
      RunKeepsPrefixes(w, a);
      RunKeepsPrefixes(first.0, b);
    }
    assert one.0 == first.0.(chunkCount := n);
    var two := Run(one.0, b);
    assert two.0 == second.0.(chunkCount := n) && two.1 == second.1 by {
      RunCountIndependent(first.0, b, n);
    }
    var whole := Run(w, a + b);
    assert whole.0 == second.0 && Join(whole.1) == Join(first.1) + Join(second.1) by {
      RunJoin(w, a, b);
    }
  }

  // ---------------------------------------------------------------------
  // Namespace lists in the first chunk and in later ones
  // ---------------------------------------------------------------------

  /** Each namespace list of the first chunk allocates again on top of the
      table the earlier ones left, so a repeated list moves its namespaces
      to fresh prefixes; in a later chunk the same list changes nothing. */
  lemma NamespaceListRepeated()
    ensures Run(Initial, [NamespaceList(ListA), NamespaceList(ListA)]).0.prefixList == ["a2:"]
    ensures Feed(Feed(Initial, [NamespaceList(ListA)]).0, [NamespaceList(ListA)]).0.prefixList == ["a:"]
  {
    AllocateOnceExample();
    AllocateAgainExample();
    var once := Step(Initial, NamespaceList(ListA)).0;
    RunSingle(Initial, NamespaceList(ListA));
    RunJoin(Initial, [NamespaceList(ListA)], [NamespaceList(ListA)]);
    RunSingle(once, NamespaceList(ListA));
    RunSingle(once.(chunkCount := 1), NamespaceList(ListA));
    assert [NamespaceList(ListA)] + [NamespaceList(ListA)] == [NamespaceList(ListA), NamespaceList(ListA)];
  }
}
