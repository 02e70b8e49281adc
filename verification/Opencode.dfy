/** Reading the agent's output stream (control-plane/cmd/runtimed/opencode.go). */
module Opencode {
  import opened Common
  import opened Protocol
  import opened TaskLog

  // --- input ---------------------------------------------------------------------------------

  datatype Tokens = Tokens(input: int, output: int, reasoning: int, cacheRead: int, cacheWrite: int, cost: real)

  datatype OcError = OcError(name: string, message: string)

  /** `target` is what `toolTarget` makes of the tool's arguments. */
  datatype Part = Part(id: string, kind: string, text: string, tool: string, status: string, target: string,
                       tokens: Tokens)

  datatype Line = Garbage | Parsed(kind: string, part: Part, error: Option<OcError>)

  const NO_MESSAGE := "agent error (no message)"

  function ErrorText(e: Option<OcError>): (msg: string)
    ensures msg != ""
  {
    if e.Some? && e.value.message != "" then e.value.message
    else if e.Some? && e.value.name != "" then e.value.name
    else NO_MESSAGE
  }

  /** A line's meaning; the order of the tests is the source's. */
  datatype Meaning =
    | Nothing
    | Failure(msg: string)
    | Text(id: string, text: string)
    | ToolUse(key: string, body: Body)
    | StepEnd(tokens: Tokens)

  function ToolKey(id: string, status: string): string {
    id + "|" + status
  }

  function MeaningOf(l: Line): Meaning {
    match l
    case Garbage => Nothing
    case Parsed(kind, part, error) =>
      if kind == "error" then Failure(ErrorText(error))
      else if kind == "text" && part.text != "" then Text(part.id, part.text)
      else if part.kind == "tool" && part.tool != "" then
        ToolUse(ToolKey(part.id, part.status), Tool(part.tool, part.status, part.target))
      else if part.kind == "step-finish" then StepEnd(part.tokens)
      else Nothing
  }

  function Meanings(lines: seq<Line>): seq<Meaning> {
    seq(|lines|, i requires 0 <= i < |lines| => MeaningOf(lines[i]))
  }

  // --- keeping the first of each key ------------------------------------------------------------

  datatype Item<T> = Item(key: Option<string>, val: T)

  function Keys<T>(s: seq<Item<T>>): set<string> {
    set i | 0 <= i < |s| && s[i].key.Some? :: s[i].key.value
  }

  /** The item, unless it has one of the keys. */
  function Unless<T>(x: Item<T>, keys: set<string>): seq<Item<T>> {
    if x.key.Some? && x.key.value in keys then [] else [x]
  }

  function Drop<T>(s: seq<Item<T>>, keys: set<string>): seq<Item<T>> {
    if s == [] then [] else Unless(s[0], keys) + Drop(s[1..], keys)
  }

  /** Items without a key, and the first item of each key. */
  function Distinct<T>(s: seq<Item<T>>): seq<Item<T>> {
    if s == [] then [] else [s[0]] + Drop(Distinct(s[1..]), Keys([s[0]]))
  }

  lemma {:induction false} DropAppend<T>(a: seq<Item<T>>, b: seq<Item<T>>, keys: set<string>)
    ensures Drop(a + b, keys) == Drop(a, keys) + Drop(b, keys)
    decreases |a|
  {
    if a == [] {
      assert a + b == b;
    } else {
      var rest := a[1..];
      assert (a + b)[1..] == rest + b && (a + b)[0] == a[0];
      DropAppend(rest, b, keys);
      Assoc(Unless(a[0], keys), Drop(rest, keys), Drop(b, keys));
    }
  }

  lemma {:induction false} Assoc<T>(a: seq<T>, b: seq<T>, c: seq<T>)
    ensures a + (b + c) == a + b + c
  {
  }

  lemma {:induction false} DropTwice<T>(s: seq<Item<T>>, k: set<string>, l: set<string>)
    ensures Drop(Drop(s, k), l) == Drop(s, k + l)
    decreases |s|
  {
    if s != [] {
      DropTwice(s[1..], k, l);
      DropAppend(Unless(s[0], k), Drop(s[1..], k), l);
    }
  }

  lemma {:induction false} KeysAppend<T>(a: seq<Item<T>>, b: seq<Item<T>>)
    ensures Keys(a + b) == Keys(a) + Keys(b)
  {
    var s := a + b;
    forall k | k in Keys(b)
      ensures k in Keys(s)
    {
      var i :| 0 <= i < |b| && b[i].key == Some(k);
      assert s[|a| + i].key == Some(k);
    }
    forall k | k in Keys(a)
      ensures k in Keys(s)
    {
      var i :| 0 <= i < |a| && a[i].key == Some(k);
      assert s[i].key == Some(k);
    }
  }

  lemma {:induction false} DistinctAppend<T>(a: seq<Item<T>>, b: seq<Item<T>>)
    ensures Distinct(a + b) == Distinct(a) + Drop(Distinct(b), Keys(a))
    decreases |a|
  {
    if a == [] {
      assert a + b == b;
      DropNothing(Distinct(b), Keys(a));
    } else {
      var k := Keys([a[0]]);
      assert (a + b)[1..] == a[1..] + b;
      DistinctAppend(a[1..], b);
      DropAppend(Distinct(a[1..]), Drop(Distinct(b), Keys(a[1..])), k);
      DropTwice(Distinct(b), Keys(a[1..]), k);
      assert a == [a[0]] + a[1..];
      KeysAppend([a[0]], a[1..]);
      assert Keys(a[1..]) + k == Keys(a);
    }
  }

  lemma {:induction false} DropNothing<T>(s: seq<Item<T>>, keys: set<string>)
    requires keys == {}
    ensures Drop(s, keys) == s
    decreases |s|
  {
    if s != [] {
      DropNothing(s[1..], keys);
    }
  }

  lemma {:induction false} KeysOfDrop<T>(s: seq<Item<T>>, keys: set<string>)
    ensures Keys(Drop(s, keys)) == Keys(s) - keys
    decreases |s|
  {
    if s != [] {
      KeysOfDrop(s[1..], keys);
      assert s == [s[0]] + s[1..];
      KeysAppend([s[0]], s[1..]);
      KeysAppend(Unless(s[0], keys), Drop(s[1..], keys));
    }
  }

  ghost predicate NoRepeats<T>(s: seq<Item<T>>) {
    forall i, j :: 0 <= i < j < |s| && s[i].key.Some? ==> s[i].key != s[j].key
  }

  lemma {:induction false} NoRepeatsCons<T>(x: Item<T>, s: seq<Item<T>>)
    requires NoRepeats(s) && (x.key.Some? ==> x.key.value !in Keys(s))
    ensures NoRepeats([x] + s)
  {
    var d := [x] + s;
    forall i, j | 0 <= i < j < |d| && d[i].key.Some?
      ensures d[i].key != d[j].key
    {
      assert d[j] == s[j - 1];
      if i > 0 {
        assert d[i] == s[i - 1];
      }
    }
  }

  lemma {:induction false} DropKeepsNoRepeats<T>(s: seq<Item<T>>, keys: set<string>)
    requires NoRepeats(s)
    ensures NoRepeats(Drop(s, keys))
    decreases |s|
  {
    if s != [] {
      var rest := s[1..];
      assert forall i :: 0 <= i < |rest| ==> rest[i] == s[i + 1];
      DropKeepsNoRepeats(rest, keys);
      if s[0].key.Some? && s[0].key.value !in keys {
        KeysOfDrop(rest, keys);
        NoRepeatsCons(s[0], Drop(rest, keys));
      } else if s[0].key.None? {
        NoRepeatsCons(s[0], Drop(rest, keys));
      }
    }
  }

  /** Every key that occurs is kept exactly once. */
  lemma {:induction false} DistinctOnce<T>(s: seq<Item<T>>)
    ensures Keys(Distinct(s)) == Keys(s) && NoRepeats(Distinct(s))
    decreases |s|
  {
    if s != [] {
      var k := Keys([s[0]]);
      DistinctOnce(s[1..]);
      DropKeepsNoRepeats(Distinct(s[1..]), k);
      KeysOfDrop(Distinct(s[1..]), k);
      KeysAppend([s[0]], s[1..]);
      KeysAppend([s[0]], Drop(Distinct(s[1..]), k));
      assert s == [s[0]] + s[1..];
      assert s[0].key.Some? ==> [s[0]][0].key.value in k;
      NoRepeatsCons(s[0], Drop(Distinct(s[1..]), k));
    }
  }

  // --- the declarative result ------------------------------------------------------------------

  function TextItem(m: Meaning): seq<Item<string>> {
    if m.Text? then [Item(Some(m.id), m.id)] else []
  }

  function TextItems(ms: seq<Meaning>): seq<Item<string>> {
    if ms == [] then [] else TextItem(ms[0]) + TextItems(ms[1..])
  }

  function EmitItem(m: Meaning): seq<Item<Body>> {
    match m
    case Failure(msg) => [Item(None, Message("agent_error", msg))]
    case Text(_, text) => [Item(None, Message("agent", text))]
    case ToolUse(key, body) => [Item(Some(key), body)]
    case _ => []
  }

  function EmitItems(ms: seq<Meaning>): seq<Item<Body>> {
    if ms == [] then [] else EmitItem(ms[0]) + EmitItems(ms[1..])
  }

  /** The last non-empty text of each part. */
  function LastTexts(ms: seq<Meaning>): map<string, string> {
    if ms == [] then map[]
    else (if ms[0].Text? then map[ms[0].id := ms[0].text] else map[]) + LastTexts(ms[1..])
  }

  function FirstFailure(ms: seq<Meaning>): string {
    if ms == [] then "" else if ms[0].Failure? then ms[0].msg else FirstFailure(ms[1..])
  }

  function Add(a: Tokens, b: Tokens): Tokens {
    Tokens(a.input + b.input, a.output + b.output, a.reasoning + b.reasoning,
           a.cacheRead + b.cacheRead, a.cacheWrite + b.cacheWrite, a.cost + b.cost)
  }

  const ZERO := Tokens(0, 0, 0, 0, 0, 0.0)

  function SumTokens(ms: seq<Meaning>): Tokens {
    if ms == [] then ZERO
    else if ms[0].StepEnd? then Add(ms[0].tokens, SumTokens(ms[1..])) else SumTokens(ms[1..])
  }

  /** What a stretch of the stream contributes, enough to combine it with what comes after:
      the parts in order of first appearance with their last texts, the first error, the sums,
      and the events to emit with their de-duplication keys. */
  datatype Summary = Summary(
    order: seq<Item<string>>,
    parts: map<string, string>,
    apiErr: string,
    tokens: Tokens,
    sawText: bool,
    sawTool: bool,
    emits: seq<Item<Body>>)

  predicate Has<T>(ms: seq<T>, p: T -> bool) {
    exists i :: 0 <= i < |ms| && p(ms[i])
  }

  function Summarize(ms: seq<Meaning>): Summary {
    Summary(Distinct(TextItems(ms)), LastTexts(ms), FirstFailure(ms), SumTokens(ms),
            Has(ms, (m: Meaning) => m.Text?), Has(ms, (m: Meaning) => m.ToolUse?), Distinct(EmitItems(ms)))
  }

  function Merge(a: Summary, b: Summary): Summary {
    Summary(a.order + Drop(b.order, Keys(a.order)),
            a.parts + b.parts,
            if a.apiErr != "" then a.apiErr else b.apiErr,
            Add(a.tokens, b.tokens),
            a.sawText || b.sawText,
            a.sawTool || b.sawTool,
            a.emits + Drop(b.emits, Keys(a.emits)))
  }

  const EMPTY := Summary([], map[], "", ZERO, false, false, [])

  ghost predicate FailuresSpeak(ms: seq<Meaning>) {
    forall i :: 0 <= i < |ms| ==> ms[i].Failure? ==> ms[i].msg != ""
  }

  lemma {:induction false} ItemsAppend(xs: seq<Meaning>, ys: seq<Meaning>)
    ensures TextItems(xs + ys) == TextItems(xs) + TextItems(ys)
    ensures EmitItems(xs + ys) == EmitItems(xs) + EmitItems(ys)
    decreases |xs|
  {
    if xs == [] {
      assert xs + ys == ys;
    } else {
      var rest := xs[1..];
      assert (xs + ys)[1..] == rest + ys && (xs + ys)[0] == xs[0];
      ItemsAppend(rest, ys);
      Assoc(TextItem(xs[0]), TextItems(rest), TextItems(ys));
      Assoc(EmitItem(xs[0]), EmitItems(rest), EmitItems(ys));
    }
  }

  lemma {:induction false} LastTextsAppend(xs: seq<Meaning>, ys: seq<Meaning>)
    ensures LastTexts(xs + ys) == LastTexts(xs) + LastTexts(ys)
    decreases |xs|
  {
    if xs == [] {
      assert xs + ys == ys;
    } else {
      var rest := xs[1..];
      assert (xs + ys)[1..] == rest + ys;
      LastTextsAppend(rest, ys);
      var head := if xs[0].Text? then map[xs[0].id := xs[0].text] else map[];
      MapsChain(head, LastTexts(rest), LastTexts(ys));
    }
  }

  lemma {:induction false} MapsChain(a: map<string, string>, b: map<string, string>, c: map<string, string>)
    ensures a + (b + c) == a + b + c
  {
  }

  lemma {:induction false} FirstFailureAppend(xs: seq<Meaning>, ys: seq<Meaning>)
    requires FailuresSpeak(xs)
    ensures FirstFailure(xs + ys) == if FirstFailure(xs) != "" then FirstFailure(xs) else FirstFailure(ys)
    decreases |xs|
  {
    if xs == [] {
      assert xs + ys == ys;
    } else {
      assert (xs + ys)[1..] == xs[1..] + ys;
      FirstFailureAppend(xs[1..], ys);
    }
  }

  lemma {:induction false} SumTokensAppend(xs: seq<Meaning>, ys: seq<Meaning>)
    ensures SumTokens(xs + ys) == Add(SumTokens(xs), SumTokens(ys))
    decreases |xs|
  {
    if xs == [] {
      assert xs + ys == ys;
    } else {
      assert (xs + ys)[1..] == xs[1..] + ys;
      SumTokensAppend(xs[1..], ys);
    }
  }

  lemma {:induction false} HasAppend<T>(xs: seq<T>, ys: seq<T>, p: T -> bool)
    ensures Has(xs + ys, p) <==> Has(xs, p) || Has(ys, p)
  {
    var s := xs + ys;
    if Has(xs, p) {
      var i :| 0 <= i < |xs| && p(xs[i]);
      assert p(s[i]);
    }
    if Has(ys, p) {
      var i :| 0 <= i < |ys| && p(ys[i]);
      assert p(s[|xs| + i]);
    }
  }

  /** The result on two stretches is the merge of the results on each. */
  lemma {:induction false} SummarizeAppend(xs: seq<Meaning>, ys: seq<Meaning>)
    requires FailuresSpeak(xs)
    ensures Summarize(xs + ys) == Merge(Summarize(xs), Summarize(ys))
  {
    ItemsAppend(xs, ys);
    DistinctAppend(TextItems(xs), TextItems(ys));
    DistinctOnce(TextItems(xs));
    DistinctAppend(EmitItems(xs), EmitItems(ys));
    DistinctOnce(EmitItems(xs));
    LastTextsAppend(xs, ys);
    FirstFailureAppend(xs, ys);
    SumTokensAppend(xs, ys);
    HasAppend(xs, ys, (m: Meaning) => m.Text?);
    HasAppend(xs, ys, (m: Meaning) => m.ToolUse?);
  }

  lemma {:induction false} MergeIsAssociative(a: Summary, b: Summary, c: Summary)
    ensures Merge(Merge(a, b), c) == Merge(a, Merge(b, c))
  {
    MergeItems(a.order, b.order, c.order);
    MergeItems(a.emits, b.emits, c.emits);
    assert a.parts + b.parts + c.parts == a.parts + (b.parts + c.parts);
  }

  lemma {:induction false} MergeItems<T>(a: seq<Item<T>>, b: seq<Item<T>>, c: seq<Item<T>>)
    ensures var ab := a + Drop(b, Keys(a));
      var bc := b + Drop(c, Keys(b));
      ab + Drop(c, Keys(ab)) == a + Drop(bc, Keys(a))
  {
    DropAppend(b, Drop(c, Keys(b)), Keys(a));
    DropTwice(c, Keys(b), Keys(a));
    KeysAppend(a, Drop(b, Keys(a)));
    KeysOfDrop(b, Keys(a));
    assert Keys(a) + Keys(Drop(b, Keys(a))) == Keys(b) + Keys(a);
  }

  lemma {:induction false} MergeUnit(a: Summary)
    ensures Merge(EMPTY, a) == a && Merge(a, EMPTY) == a
  {
    DropNothing(a.order, Keys(EMPTY.order));
    DropNothing(a.emits, Keys(EMPTY.emits));
    assert EMPTY.parts + a.parts == a.parts && a.parts + EMPTY.parts == a.parts;
    assert Add(ZERO, a.tokens) == a.tokens && Add(a.tokens, ZERO) == a.tokens;
    assert a.order + [] == a.order && a.emits + [] == a.emits;
  }

  // --- the loop -----------------------------------------------------------------------------------

  /** `opencodeParseResult`; `total` is the sum of the five counts. */
  datatype Result = Result(finalMessage: string, tokens: Tokens, total: int, sawText: bool, sawTool: bool,
                           apiErr: string)

  function Concat(order: seq<Item<string>>, parts: map<string, string>): string {
    if order == [] then ""
    else (if order[0].val in parts then parts[order[0].val] else "") + Concat(order[1..], parts)
  }

  function Bodies(items: seq<Item<Body>>): seq<Body> {
    seq(|items|, i requires 0 <= i < |items| => items[i].val)
  }

  function Expected(lines: seq<Line>): Result {
    var s := Summarize(Meanings(lines));
    Result(Concat(s.order, s.parts), s.tokens,
           s.tokens.input + s.tokens.output + s.tokens.reasoning + s.tokens.cacheRead + s.tokens.cacheWrite,
           s.sawText, s.sawTool, s.apiErr)
  }

  ghost predicate ItemsTrack(order: seq<string>, keys: set<string>, items: seq<Item<string>>) {
    && |order| == |items| && keys == Keys(items)
    && forall i :: 0 <= i < |order| ==> items[i] == Item(Some(order[i]), order[i])
  }

  ghost predicate OrderTracks(order: seq<string>, parts: map<string, string>, s: Summary) {
    ItemsTrack(order, parts.Keys, s.order) && parts == s.parts
  }

  ghost predicate EmitsTrack(seenTool: set<string>, emitted: seq<Body>, items: seq<Item<Body>>) {
    seenTool == Keys(items) && emitted == Bodies(items)
  }

  ghost predicate CountsTrack(pr: Result, s: Summary) {
    pr.tokens == s.tokens && pr.sawText == s.sawText && pr.sawTool == s.sawTool && pr.apiErr == s.apiErr
  }

  /** The loop's variables, as the summary of what it has read. */
  ghost predicate Tracks(order: seq<string>, parts: map<string, string>, seenTool: set<string>, pr: Result,
                         emitted: seq<Body>, s: Summary) {
    OrderTracks(order, parts, s) && EmitsTrack(seenTool, emitted, s.emits) && CountsTrack(pr, s)
  }

  lemma {:induction false} OneLine(m: Meaning)
    ensures var s := Summarize([m]);
      && s.order == TextItem(m) && s.emits == EmitItem(m)
      && s.parts == (if m.Text? then map[m.id := m.text] else map[])
      && s.apiErr == (if m.Failure? then m.msg else "")
      && s.tokens == (if m.StepEnd? then m.tokens else ZERO)
      && s.sawText == m.Text? && s.sawTool == m.ToolUse?
  {
    var one := [m];
    assert one[0] == m && one[1..] == [];
    assert TextItems(one) == TextItem(m);
    assert EmitItems(one) == EmitItem(m);
    DistinctShort(TextItem(m));
    DistinctShort(EmitItem(m));
    assert LastTexts(one[1..]) == map[] && FirstFailure(one[1..]) == "" && SumTokens(one[1..]) == ZERO;
    if m.Text? {
      assert one[0].Text?;
    } else if m.ToolUse? {
      assert one[0].ToolUse?;
    }
  }

  lemma {:induction false} DistinctShort<T>(s: seq<Item<T>>)
    requires |s| <= 1
    ensures Distinct(s) == s
  {
    if s != [] {
      assert s[1..] == [];
    }
  }

  lemma {:induction false} MeaningsSpeak(lines: seq<Line>)
    ensures FailuresSpeak(Meanings(lines))
  {
  }

  lemma {:induction false} MeaningsSnoc(lines: seq<Line>, i: nat)
    requires i < |lines|
    ensures Meanings(lines[..i + 1]) == Meanings(lines[..i]) + [MeaningOf(lines[i])]
  {
  }

  lemma {:induction false} SummarizeSnoc(lines: seq<Line>, i: nat)
    requires i < |lines|
    ensures Summarize(Meanings(lines[..i + 1]))
         == Merge(Summarize(Meanings(lines[..i])), Summarize([MeaningOf(lines[i])]))
  {
    MeaningsSnoc(lines, i);
    MeaningsSpeak(lines[..i]);
    SummarizeAppend(Meanings(lines[..i]), [MeaningOf(lines[i])]);
  }

  lemma {:induction false} DropOne<T>(x: Item<T>, keys: set<string>)
    ensures Drop([x], keys) == if x.key.Some? && x.key.value in keys then [] else [x]
  {
    assert [x][1..] == [];
  }

  lemma {:induction false} BodiesSnoc(items: seq<Item<Body>>, x: Item<Body>)
    ensures Bodies(items + [x]) == Bodies(items) + [x.val]
    ensures Keys(items + [x]) == Keys(items) + (if x.key.Some? then {x.key.value} else {})
  {
    KeysAppend(items, [x]);
    assert x.key.Some? ==> [x][0].key.value in Keys([x]);
  }

  lemma {:induction false} OrderSnoc(items: seq<Item<string>>, id: string)
    ensures Keys(items + [Item(Some(id), id)]) == Keys(items) + {id}
  {
    KeysAppend(items, [Item(Some(id), id)]);
    assert [Item(Some(id), id)][0].key.value in Keys([Item(Some(id), id)]);
  }

  lemma {:induction false} OrderKept(order: seq<string>, parts: map<string, string>, s: Summary, m: Meaning)
    requires OrderTracks(order, parts, s) && !m.Text?
    ensures OrderTracks(order, parts, Merge(s, Summarize([m])))
  {
    OneLine(m);
    assert s.parts + map[] == s.parts && s.order + [] == s.order;
  }

  lemma {:induction false} OrderGrows(order: seq<string>, parts: map<string, string>, s: Summary, id: string,
                                      text: string)
    requires OrderTracks(order, parts, s)
    ensures OrderTracks(if id in parts then order else order + [id], parts[id := text],
                        Merge(s, Summarize([Text(id, text)])))
  {
    MergeText(s, id, text);
    OrderSnoc(s.order, id);
    ItemsGrow(order, parts, s.order, id, text);
  }

  lemma {:induction false} MergeText(s: Summary, id: string, text: string)
    ensures var s' := Merge(s, Summarize([Text(id, text)]));
      && s'.order == s.order + (if id in Keys(s.order) then [] else [Item(Some(id), id)])
      && s'.parts == s.parts[id := text]
  {
    OneLine(Text(id, text));
    DropOne(Item(Some(id), id), Keys(s.order));
    assert s.parts + map[id := text] == s.parts[id := text];
  }

  lemma {:induction false} ItemsGrow(order: seq<string>, parts: map<string, string>, items: seq<Item<string>>,
                                     id: string, text: string)
    requires ItemsTrack(order, parts.Keys, items)
    requires Keys(items + [Item(Some(id), id)]) == Keys(items) + {id}
    ensures ItemsTrack(if id in parts then order else order + [id], parts[id := text].Keys,
                       items + if id in parts then [] else [Item(Some(id), id)])
  {
    assert parts[id := text].Keys == parts.Keys + {id};
    if id in parts {
      assert items + [] == items && parts.Keys + {id} == parts.Keys;
    }
  }

  /** One more emitted item: its key is remembered, and a remembered key emits nothing. */
  lemma {:induction false} EmitsGrow(seenTool: set<string>, emitted: seq<Body>, items: seq<Item<Body>>, x: Item<Body>)
    requires EmitsTrack(seenTool, emitted, items)
    ensures EmitsTrack(seenTool + (if x.key.Some? then {x.key.value} else {}),
                       if x.key.Some? && x.key.value in seenTool then emitted else emitted + [x.val],
                       items + Drop([x], Keys(items)))
  {
    DropOne(x, Keys(items));
    if x.key.Some? && x.key.value in seenTool {
      assert items + [] == items;
      assert seenTool + {x.key.value} == seenTool;
    } else {
      BodiesSnoc(items, x);
    }
  }

  /** The accumulator after one line. */
  function Counted(pr: Result, m: Meaning): Result {
    match m
    case Failure(msg) => pr.(apiErr := if pr.apiErr == "" then msg else pr.apiErr)
    case Text(_, _) => pr.(sawText := true)
    case ToolUse(_, _) => pr.(sawTool := true)
    case StepEnd(tokens) => pr.(tokens := Add(pr.tokens, tokens))
    case Nothing => pr
  }

  lemma {:induction false} CountsGrow(pr: Result, s: Summary, m: Meaning)
    requires CountsTrack(pr, s)
    ensures CountsTrack(Counted(pr, m), Merge(s, Summarize([m])))
  {
    OneLine(m);
    assert Add(s.tokens, ZERO) == s.tokens;
  }

  /** What one line emits, unless its key has been seen. */
  lemma {:induction false} EmitsAfter(seenTool: set<string>, emitted: seq<Body>, s: Summary, m: Meaning)
    requires EmitsTrack(seenTool, emitted, s.emits)
    ensures var items := Merge(s, Summarize([m])).emits;
      match m
      case Failure(msg) => EmitsTrack(seenTool, emitted + [Message("agent_error", msg)], items)
      case Text(_, text) => EmitsTrack(seenTool, emitted + [Message("agent", text)], items)
      case ToolUse(key, body) =>
        EmitsTrack(seenTool + {key}, if key in seenTool then emitted else emitted + [body], items)
      case StepEnd(_) => EmitsTrack(seenTool, emitted, items)
      case Nothing => EmitsTrack(seenTool, emitted, items)
  {
    OneLine(m);
    if EmitItem(m) == [] {
      assert s.emits + [] == s.emits;
    } else {
      EmitsGrow(seenTool, emitted, s.emits, EmitItem(m)[0]);
      assert seenTool + {} == seenTool;
    }
  }

  // --- the result on the lines themselves -----------------------------------------------------------

  predicate ErrorLine(l: Line) {
    l.Parsed? && l.kind == "error"
  }

  predicate TextLine(l: Line) {
    l.Parsed? && l.kind == "text" && l.part.text != ""
  }

  /** Of the lines that are neither, those about a tool call and those that end a step. */
  predicate ToolLine(l: Line) {
    l.Parsed? && l.kind != "error" && !TextLine(l) && l.part.kind == "tool" && l.part.tool != ""
  }

  predicate StepLine(l: Line) {
    l.Parsed? && l.kind != "error" && !TextLine(l) && l.part.kind == "step-finish"
  }

  /** The part and status of a tool line, joined. */
  function CallOf(l: Line): string
    requires ToolLine(l)
  {
    l.part.id + "|" + l.part.status
  }

  ghost predicate HasCall(lines: seq<Line>, key: string) {
    exists i :: 0 <= i < |lines| && ToolLine(lines[i]) && CallOf(lines[i]) == key
  }

  ghost predicate HasText(lines: seq<Line>, id: string) {
    exists i :: 0 <= i < |lines| && TextLine(lines[i]) && lines[i].part.id == id
  }

  /** What is emitted: each error and each text, and of the tool lines the first of each part and
      status, in stream order. */
  ghost function Emitted(lines: seq<Line>): seq<Body> {
    if lines == [] then []
    else
      var front, l := lines[..|lines| - 1], lines[|lines| - 1];
      Emitted(front) +
      if ErrorLine(l) then [Message("agent_error", ErrorText(l.error))]
      else if TextLine(l) then [Message("agent", l.part.text)]
      else if ToolLine(l) && !HasCall(front, CallOf(l)) then [Tool(l.part.tool, l.part.status, l.part.target)]
      else []
  }

  /** The last non-empty text of a part. */
  function LastText(lines: seq<Line>, id: string): string {
    if lines == [] then ""
    else
      var l := lines[|lines| - 1];
      if TextLine(l) && l.part.id == id then l.part.text else LastText(lines[..|lines| - 1], id)
  }

  /** The last texts, in `all`, of the parts that appear in `lines`, in order of appearance. */
  ghost function FinalText(lines: seq<Line>, all: seq<Line>): string {
    if lines == [] then ""
    else
      var front, l := lines[..|lines| - 1], lines[|lines| - 1];
      FinalText(front, all) +
      if TextLine(l) && !HasText(front, l.part.id) then LastText(all, l.part.id) else ""
  }

  datatype Count = Input | Output | Reasoning | CacheRead | CacheWrite

  function CountOf(t: Tokens, c: Count): int {
    match c
    case Input => t.input
    case Output => t.output
    case Reasoning => t.reasoning
    case CacheRead => t.cacheRead
    case CacheWrite => t.cacheWrite
  }

  function Total(lines: seq<Line>, c: Count): int {
    if lines == [] then 0
    else
      var l := lines[|lines| - 1];
      Total(lines[..|lines| - 1], c) + if StepLine(l) then CountOf(l.part.tokens, c) else 0
  }

  function TotalCost(lines: seq<Line>): real {
    if lines == [] then 0.0
    else
      var l := lines[|lines| - 1];
      TotalCost(lines[..|lines| - 1]) + if StepLine(l) then l.part.tokens.cost else 0.0
  }

  /** An error's text: its message, else its name, else a constant. */
  lemma {:induction false} ErrorTextIs(e: Option<OcError>)
    ensures e.Some? && e.value.message != "" ==> ErrorText(e) == e.value.message
    ensures e.Some? && e.value.message == "" && e.value.name != "" ==> ErrorText(e) == e.value.name
    ensures e.None? || e.value == OcError("", "") ==> ErrorText(e) == "agent error (no message)"
  {
  }

  lemma {:induction false} MeaningIs(l: Line)
    ensures var m := MeaningOf(l);
      && (m.Failure? <==> ErrorLine(l)) && (m.Text? <==> TextLine(l))
      && (m.ToolUse? <==> ToolLine(l)) && (m.StepEnd? <==> StepLine(l))
      && (m.Failure? ==> m.msg == ErrorText(l.error))
      && (m.Text? ==> m.id == l.part.id && m.text == l.part.text)
      && (m.ToolUse? ==> m.key == CallOf(l) && m.body == Tool(l.part.tool, l.part.status, l.part.target))
      && (m.StepEnd? ==> m.tokens == l.part.tokens)
  {
  }

  /** The summary of a stream, from that of all but its last line. */
  lemma {:induction false} SummaryOf(lines: seq<Line>) returns (front: seq<Line>, l: Line, s: Summary)
    requires lines != []
    ensures lines == front + [l] && front == lines[..|lines| - 1] && l == lines[|lines| - 1]
    ensures s == Summarize(Meanings(front)) && Summarize(Meanings(lines)) == Merge(s, Summarize([MeaningOf(l)]))
  {
    front, l := lines[..|lines| - 1], lines[|lines| - 1];
    s := Summarize(Meanings(front));
    SummarizeSnoc(lines, |lines| - 1);
    assert lines[..|lines|] == lines;
  }

  /** The same for its parts, its order and its counts. */
  lemma {:induction false} FieldsOf(lines: seq<Line>) returns (front: seq<Line>, l: Line, s: Summary)
    requires lines != []
    ensures lines == front + [l] && front == lines[..|lines| - 1] && l == lines[|lines| - 1]
    ensures s == Summarize(Meanings(front))
    ensures var e := Summarize(Meanings(lines));
      && e.parts == (if TextLine(l) then s.parts[l.part.id := l.part.text] else s.parts)
      && e.order == s.order + (if TextLine(l) && l.part.id !in Keys(s.order) then [Item(Some(l.part.id), l.part.id)] else [])
      && e.tokens == Add(s.tokens, if StepLine(l) then l.part.tokens else ZERO)
  {
    front, l, s := SummaryOf(lines);
    MeaningIs(l);
    OneLine(MeaningOf(l));
    if TextLine(l) {
      MergeText(s, l.part.id, l.part.text);
    } else {
      assert s.order + [] == s.order && s.parts + map[] == s.parts;
    }
  }

  lemma {:induction false} HasSnoc(front: seq<Line>, l: Line, x: string)
    ensures HasText(front + [l], x) <==> HasText(front, x) || (TextLine(l) && l.part.id == x)
    ensures HasCall(front + [l], x) <==> HasCall(front, x) || (ToolLine(l) && CallOf(l) == x)
  {
    var all := front + [l];
    assert all[|front|] == l && forall i :: 0 <= i < |front| ==> all[i] == front[i];
  }

  lemma {:induction false} CallsAreKeys(lines: seq<Line>, key: string)
    ensures key in Keys(Summarize(Meanings(lines)).emits) <==> HasCall(lines, key)
    decreases |lines|
  {
    if lines == [] {
      assert Meanings(lines) == [];
    } else {
      var front, l, s := SummaryOf(lines);
      var items := EmitItem(MeaningOf(l));
      MeaningIs(l);
      CallsAreKeys(front, key);
      HasSnoc(front, l, key);
      OneLine(MeaningOf(l));
      KeysAppend(s.emits, Drop(items, Keys(s.emits)));
      KeysOfDrop(items, Keys(s.emits));
      KeysOfOne(MeaningOf(l));
    }
  }

  lemma {:induction false} KeysOfOne(m: Meaning)
    ensures Keys(EmitItem(m)) == if m.ToolUse? then {m.key} else {}
    ensures Keys(TextItem(m)) == if m.Text? then {m.id} else {}
  {
    assert m.ToolUse? ==> EmitItem(m)[0].key == Some(m.key);
    assert m.Text? ==> TextItem(m)[0].key == Some(m.id);
  }

  lemma {:induction false} TextsAreKeys(lines: seq<Line>, id: string)
    ensures id in Keys(Summarize(Meanings(lines)).order) <==> HasText(lines, id)
    decreases |lines|
  {
    if lines == [] {
      assert Meanings(lines) == [];
    } else {
      var front, l, s := SummaryOf(lines);
      var items := TextItem(MeaningOf(l));
      MeaningIs(l);
      TextsAreKeys(front, id);
      HasSnoc(front, l, id);
      OneLine(MeaningOf(l));
      KeysAppend(s.order, Drop(items, Keys(s.order)));
      KeysOfDrop(items, Keys(s.order));
      KeysOfOne(MeaningOf(l));
    }
  }

  lemma {:induction false} EmitsAre(lines: seq<Line>)
    ensures Bodies(Summarize(Meanings(lines)).emits) == Emitted(lines)
    decreases |lines|
  {
    if lines == [] {
      assert Meanings(lines) == [];
    } else {
      var front, l, s := SummaryOf(lines);
      var m := MeaningOf(l);
      EmitsAre(front);
      MeaningIs(l);
      EmitsAfter(Keys(s.emits), Bodies(s.emits), s, m);
      if ToolLine(l) {
        CallsAreKeys(front, CallOf(l));
      }
    }
  }

  lemma {:induction false} PartsAre(lines: seq<Line>, id: string)
    ensures var parts := Summarize(Meanings(lines)).parts;
      (id in parts <==> HasText(lines, id)) && (id in parts ==> parts[id] == LastText(lines, id))
    decreases |lines|
  {
    if lines == [] {
      assert Meanings(lines) == [];
    } else {
      var front, l, s := FieldsOf(lines);
      PartsAre(front, id);
      HasSnoc(front, l, id);
    }
  }

  lemma {:induction false} ConcatSnoc(order: seq<Item<string>>, x: Item<string>, parts: map<string, string>)
    ensures Concat(order + [x], parts) == Concat(order, parts) + if x.val in parts then parts[x.val] else ""
    decreases |order|
  {
    if order == [] {
      assert order + [x] == [x] && [x][1..] == [];
    } else {
      assert (order + [x])[1..] == order[1..] + [x];
      ConcatSnoc(order[1..], x, parts);
    }
  }

  lemma {:induction false} MessageIs(lines: seq<Line>, all: seq<Line>)
    requires forall i :: 0 <= i < |lines| && TextLine(lines[i]) ==> HasText(all, lines[i].part.id)
    ensures Concat(Summarize(Meanings(lines)).order, Summarize(Meanings(all)).parts) == FinalText(lines, all)
    decreases |lines|
  {
    if lines == [] {
      assert Meanings(lines) == [];
    } else {
      var front, l, s := FieldsOf(lines);
      var parts := Summarize(Meanings(all)).parts;
      assert forall i :: 0 <= i < |front| ==> front[i] == lines[i];
      MessageIs(front, all);
      if TextLine(l) {
        TextsAreKeys(front, l.part.id);
        PartsAre(all, l.part.id);
        ConcatSnoc(s.order, Item(Some(l.part.id), l.part.id), parts);
      }
      assert s.order + [] == s.order;
    }
  }

  lemma {:induction false} TotalIs(lines: seq<Line>, c: Count)
    ensures CountOf(Summarize(Meanings(lines)).tokens, c) == Total(lines, c)
    decreases |lines|
  {
    if lines == [] {
      assert Meanings(lines) == [];
    } else {
      var front, l, s := FieldsOf(lines);
      TotalIs(front, c);
    }
  }

  lemma {:induction false} TotalCostIs(lines: seq<Line>)
    ensures Summarize(Meanings(lines)).tokens.cost == TotalCost(lines)
    decreases |lines|
  {
    if lines == [] {
      assert Meanings(lines) == [];
    } else {
      var front, l, s := FieldsOf(lines);
      TotalCostIs(front);
    }
  }

  lemma {:induction false} TokensAre(lines: seq<Line>)
    ensures Summarize(Meanings(lines)).tokens
      == Tokens(Total(lines, Input), Total(lines, Output), Total(lines, Reasoning),
                Total(lines, CacheRead), Total(lines, CacheWrite), TotalCost(lines))
  {
    TotalIs(lines, Input);
    TotalIs(lines, Output);
    TotalIs(lines, Reasoning);
    TotalIs(lines, CacheRead);
    TotalIs(lines, CacheWrite);
    TotalCostIs(lines);
  }

  lemma {:induction false} FirstErrorIs(lines: seq<Line>)
    ensures var err := Summarize(Meanings(lines)).apiErr;
      && ((forall i :: 0 <= i < |lines| ==> !ErrorLine(lines[i])) ==> err == "")
      && (forall i :: 0 <= i < |lines| && ErrorLine(lines[i]) && (forall j :: 0 <= j < i ==> !ErrorLine(lines[j])) ==>
            err == ErrorText(lines[i].error))
  {
    var ms := Meanings(lines);
    forall i | 0 <= i < |lines|
      ensures ms[i] == MeaningOf(lines[i]) && (ms[i].Failure? <==> ErrorLine(lines[i]))
    {
      MeaningIs(lines[i]);
    }
    MeaningsSpeak(lines);
    FailureIff(ms);
    forall i | 0 <= i < |lines| && ErrorLine(lines[i]) && forall j :: 0 <= j < i ==> !ErrorLine(lines[j])
      ensures FirstFailure(ms) == ErrorText(lines[i].error)
    {
      MeaningIs(lines[i]);
      FirstFailureIsFirst(ms, i);
    }
  }

  /** What the parser returns for these lines, read off them one by one. */
  ghost predicate Returns(lines: seq<Line>, pr: Result) {
    && pr.finalMessage == FinalText(lines, lines)
    && pr.tokens == Tokens(Total(lines, Input), Total(lines, Output), Total(lines, Reasoning),
                           Total(lines, CacheRead), Total(lines, CacheWrite), TotalCost(lines))
    && pr.total == pr.tokens.input + pr.tokens.output + pr.tokens.reasoning + pr.tokens.cacheRead + pr.tokens.cacheWrite
    && (pr.sawText <==> exists i :: 0 <= i < |lines| && TextLine(lines[i]))
    && (pr.sawTool <==> exists i :: 0 <= i < |lines| && ToolLine(lines[i]))
    && (pr.apiErr == "" <==> forall i :: 0 <= i < |lines| ==> !ErrorLine(lines[i]))
    && (forall i :: 0 <= i < |lines| && ErrorLine(lines[i]) && (forall j :: 0 <= j < i ==> !ErrorLine(lines[j])) ==>
          pr.apiErr == ErrorText(lines[i].error))
  }

  lemma {:induction false} ExpectedReturns(lines: seq<Line>)
    ensures Returns(lines, Expected(lines))
  {
    TokensAre(lines);
    FirstErrorIs(lines);
    SawIff(lines);
    assert forall i :: 0 <= i < |lines| && TextLine(lines[i]) ==> HasText(lines, lines[i].part.id);
    MessageIs(lines, lines);
  }

  /** The loop's body: one line, whatever has been read before it. */
  method ReadLine(l: Line, order: seq<string>, parts: map<string, string>, seenTool: set<string>, pr: Result,
                  emitted: seq<Body>, ghost s: Summary)
    returns (order': seq<string>, parts': map<string, string>, seenTool': set<string>, pr': Result,
             emitted': seq<Body>)
    requires Tracks(order, parts, seenTool, pr, emitted, s)
    ensures Tracks(order', parts', seenTool', pr', emitted', Merge(s, Summarize([MeaningOf(l)])))
    ensures pr'.finalMessage == pr.finalMessage && pr'.total == pr.total
  {
    order', parts', seenTool', pr', emitted' := order, parts, seenTool, pr, emitted;
    ghost var m := MeaningOf(l);
    CountsGrow(pr, s, m);
    EmitsAfter(seenTool, emitted, s, m);
    if m.Text? {
      OrderGrows(order, parts, s, m.id, m.text);
    } else {
      OrderKept(order, parts, s, m);
    }
    if l.Garbage? {
      return;
    }
    var part := l.part;
    if l.kind == "error" {
      var msg := ErrorText(l.error);
      if pr.apiErr == "" {
        pr' := pr.(apiErr := msg);
      }
      emitted' := emitted + [Message("agent_error", msg)];
    } else if l.kind == "text" && part.text != "" {
      pr' := pr.(sawText := true);
      if part.id !in parts {
        order' := order + [part.id];
      }
      parts' := parts[part.id := part.text];
      emitted' := emitted + [Message("agent", part.text)];
    } else if part.kind == "tool" && part.tool != "" {
      var key := ToolKey(part.id, part.status);
      pr' := pr.(sawTool := true);
      if key !in seenTool {
        emitted' := emitted + [Tool(part.tool, part.status, part.target)];
      }
      seenTool' := seenTool + {key};
    } else if part.kind == "step-finish" {
      pr' := pr.(tokens := Add(pr.tokens, part.tokens));
    }
  }

  /** `parseOpencodeStream` returns what can be read off the lines one by one, which is also the
      summary of their meanings, and emits each message once and each tool event once per key, in
      stream order. */
  method ParseOpencodeStream(lines: seq<Line>) returns (pr: Result, emitted: seq<Body>)
    ensures Returns(lines, pr) && pr == Expected(lines)
    ensures emitted == Emitted(lines) == Bodies(Summarize(Meanings(lines)).emits)
  {
    pr, emitted := ReadLines(lines);
    ExpectedReturns(lines);
    EmitsAre(lines);
  }

  /** The scanning loop and what follows it. */
  method ReadLines(lines: seq<Line>) returns (pr: Result, emitted: seq<Body>)
    ensures pr == Expected(lines) && emitted == Bodies(Summarize(Meanings(lines)).emits)
  {
    var parts: map<string, string> := map[];
    var order: seq<string> := [];
    var seenTool: set<string> := {};
    pr, emitted := Result("", ZERO, 0, false, false, ""), [];
    assert Meanings(lines[..0]) == [];
    assert Summarize([]) == EMPTY;
    for i := 0 to |lines|
      invariant Tracks(order, parts, seenTool, pr, emitted, Summarize(Meanings(lines[..i])))
    {
      SummarizeSnoc(lines, i);
      order, parts, seenTool, pr, emitted :=
        ReadLine(lines[i], order, parts, seenTool, pr, emitted, Summarize(Meanings(lines[..i])));
    }
    assert lines[..|lines|] == lines;
    pr := pr.(total := pr.tokens.input + pr.tokens.output + pr.tokens.reasoning
                       + pr.tokens.cacheRead + pr.tokens.cacheWrite);
    var b := JoinParts(order, parts, Summarize(Meanings(lines)));
    pr := pr.(finalMessage := b);
  }

  /** The parts' texts, one after the other in order of first appearance. */
  method JoinParts(order: seq<string>, parts: map<string, string>, ghost s: Summary) returns (b: string)
    requires OrderTracks(order, parts, s)
    ensures b == Concat(s.order, s.parts)
  {
    b := "";
    assert s.order[0..] == s.order;
    for i := 0 to |order|
      invariant b + Concat(s.order[i..], s.parts) == Concat(s.order, s.parts)
    {
      assert s.order[i..][1..] == s.order[i + 1..];
      assert order[i] in parts by {
        assert s.order[i].key.value in Keys(s.order);
      }
      b := b + parts[order[i]];
    }
  }

  // --- what the result means ------------------------------------------------------------------------

  /** The last text of a part is the last one, and the first failure the first one. */
  lemma {:induction false} LastTextIsLast(ms: seq<Meaning>, i: nat)
    requires i < |ms| && ms[i].Text? && forall j | i < j < |ms| && ms[j].Text? :: ms[j].id != ms[i].id
    ensures ms[i].id in LastTexts(ms) && LastTexts(ms)[ms[i].id] == ms[i].text
    decreases |ms|
  {
    var rest := ms[1..];
    if i > 0 {
      LastTextIsLast(rest, i - 1);
    } else {
      NoText(rest, ms[0].id);
    }
  }

  lemma {:induction false} NoText(ms: seq<Meaning>, id: string)
    requires forall j | 0 <= j < |ms| && ms[j].Text? :: ms[j].id != id
    ensures id !in LastTexts(ms)
    decreases |ms|
  {
    if ms != [] {
      NoText(ms[1..], id);
    }
  }

  lemma {:induction false} FirstFailureIsFirst(ms: seq<Meaning>, i: nat)
    requires i < |ms| && ms[i].Failure? && forall j | 0 <= j < i :: !ms[j].Failure?
    ensures FirstFailure(ms) == ms[i].msg
    decreases |ms|
  {
    if i > 0 {
      FirstFailureIsFirst(ms[1..], i - 1);
    }
  }

  /** Two tool lines share a key only if they agree on part and status, as long as no status
      contains the separator; part ids may. */
  lemma {:induction false} ToolKeyIsInjective(id: string, status: string, id': string, status': string)
    requires '|' !in status && '|' !in status'
    ensures ToolKey(id, status) == ToolKey(id', status') <==> id == id' && status == status'
  {
    var k, k' := ToolKey(id, status), ToolKey(id', status');
    if k == k' {
      assert k[|id|] == '|' && k'[|id'|] == '|';
      assert forall i | |id| < i < |k| :: k[i] == status[i - |id| - 1] && k[i] in status;
      assert forall i | |id'| < i < |k'| :: k'[i] == status'[i - |id'| - 1] && k'[i] in status';
      assert |id| == |id'|;
      assert k[..|id|] == id && k'[..|id'|] == id';
      assert k[|id| + 1..] == status && k'[|id'| + 1..] == status';
    }
  }

  lemma {:induction false} ToolKeyCanCollide()
    ensures ToolKey("a", "b|c") == ToolKey("a|b", "c")
  {
    assert ToolKey("a", "b|c") == "a|b|c" == ToolKey("a|b", "c");
  }

  /** Some other part and status have the same key exactly if the part id or the status contains
      the separator. */
  lemma {:induction false} ToolKeyIsSharedIff(id: string, status: string)
    ensures (exists id', status' :: (id' != id || status' != status) && ToolKey(id', status') == ToolKey(id, status))
      <==> '|' in id || '|' in status
  {
    var k := ToolKey(id, status);
    if '|' in id {
      var i :| 0 <= i < |id| && id[i] == '|';
      assert id == id[..i] + "|" + id[i + 1..];
      assert ToolKey(id[..i], id[i + 1..] + "|" + status) == k;
    } else if '|' in status {
      var i :| 0 <= i < |status| && status[i] == '|';
      assert status == status[..i] + "|" + status[i + 1..];
      assert ToolKey(id + "|" + status[..i], status[i + 1..]) == k;
    }
    forall id', status' | ToolKey(id', status') == k && (id' != id || status' != status)
      ensures '|' in id || '|' in status
    {
      SharedKey(id, status, id', status');
    }
  }

  lemma {:induction false} SharedKey(id: string, status: string, id': string, status': string)
    requires ToolKey(id, status) == ToolKey(id', status') && (id != id' || status != status')
    ensures '|' in id || '|' in status
  {
    var k := ToolKey(id, status);
    assert k[|id'|] == '|';
    if |id'| < |id| {
      assert id[|id'|] == '|';
    } else if |id'| > |id| {
      assert status[|id'| - |id| - 1] == '|';
    } else {
      SameLengthSameKey(id, status, id', status');
    }
  }

  lemma {:induction false} SameLengthSameKey(id: string, status: string, id': string, status': string)
    requires ToolKey(id, status) == ToolKey(id', status') && |id| == |id'|
    ensures id == id' && status == status'
  {
    var k, k' := ToolKey(id, status), ToolKey(id', status');
    assert k[..|id|] == id && k'[..|id|] == id';
    assert k[|id| + 1..] == status && k'[|id| + 1..] == status';
  }

  predicate EndsAfterBar(s: string, t: string) {
    |t| < |s| && s[|s| - |t|..] == t && s[|s| - |t| - 1] == '|'
  }

  /** For a given set of statuses: two of them can be confused, by some choice of part ids, exactly
      if one of them is the end of the other after a separator. */
  lemma {:induction false} StatusesClashIff(s: string, t: string)
    requires s != t
    ensures (exists id, id' :: ToolKey(id, s) == ToolKey(id', t)) <==> EndsAfterBar(s, t) || EndsAfterBar(t, s)
  {
    if EndsAfterBar(s, t) {
      BarClashes(s, t);
    }
    if EndsAfterBar(t, s) {
      BarClashes(t, s);
    }
    forall id, id' | ToolKey(id, s) == ToolKey(id', t)
      ensures EndsAfterBar(s, t) || EndsAfterBar(t, s)
    {
      ClashEnds(s, t, id, id');
    }
  }

  lemma {:induction false} BarClashes(s: string, t: string)
    requires EndsAfterBar(s, t)
    ensures ToolKey("", s) == ToolKey("|" + s[..|s| - |t| - 1], t)
  {
    var x := s[..|s| - |t| - 1];
    assert s == x + "|" + t;
  }

  lemma {:induction false} ClashEnds(s: string, t: string, id: string, id': string)
    requires s != t && ToolKey(id, s) == ToolKey(id', t)
    ensures EndsAfterBar(s, t) || EndsAfterBar(t, s)
  {
    var k := ToolKey(id, s);
    assert k[|k| - |s|..] == s && k[|k| - |t|..] == t;
    assert k[|k| - |s| - 1] == '|' && k[|k| - |t| - 1] == '|';
    if |s| > |t| {
      assert s[|s| - |t|..] == k[|k| - |t|..];
      assert s[|s| - |t| - 1] == k[|k| - |t| - 1];
    } else if |t| > |s| {
      assert t[|t| - |s|..] == k[|k| - |s|..];
      assert t[|t| - |s| - 1] == k[|k| - |s| - 1];
    }
  }

  /** `agent.run`'s classification of a finished agent process. */
  function AgentError(pr: Result, ctxErr: bool, exitErr: Option<string>): Option<string> {
    if ctxErr then None
    else if pr.apiErr != "" then Some("agent error: " + pr.apiErr)
    else if exitErr.Some? then Some("opencode exited: " + exitErr.value)
    else if !pr.sawText && !pr.sawTool then Some("agent produced no output (opencode exited 0 with zero events)")
    else None
  }

  /** The flags and the error say whether the stream held such lines. */
  lemma {:induction false} SawIff(lines: seq<Line>)
    ensures var s := Summarize(Meanings(lines));
      && (s.sawText <==> exists i :: 0 <= i < |lines| && TextLine(lines[i]))
      && (s.sawTool <==> exists i :: 0 <= i < |lines| && ToolLine(lines[i]))
      && (s.apiErr == "" <==> forall i :: 0 <= i < |lines| ==> !ErrorLine(lines[i]))
  {
    var ms := Meanings(lines);
    forall i | 0 <= i < |lines|
      ensures ms[i] == MeaningOf(lines[i]) && (ms[i].Failure? <==> ErrorLine(lines[i]))
      ensures (ms[i].Text? <==> TextLine(lines[i])) && (ms[i].ToolUse? <==> ToolLine(lines[i]))
    {
      MeaningIs(lines[i]);
    }
    if m :| 0 <= m < |lines| && TextLine(lines[m]) {
      assert ms[m].Text?;
    }
    if m :| 0 <= m < |lines| && ToolLine(lines[m]) {
      assert ms[m].ToolUse?;
    }
    MeaningsSpeak(lines);
    FailureIff(ms);
  }

  lemma {:induction false} FailureIff(ms: seq<Meaning>)
    requires FailuresSpeak(ms)
    ensures FirstFailure(ms) == "" <==> forall i :: 0 <= i < |ms| ==> !ms[i].Failure?
    decreases |ms|
  {
    if ms != [] {
      var rest := ms[1..];
      FailureIff(rest);
      assert forall i :: 0 <= i < |rest| ==> rest[i] == ms[i + 1];
    }
  }

  /** How the agent's process is judged, in order of authority: nothing is said once the context has
      ended; then the first error line, the exit, and the absence of any text or tool line. */
  lemma {:induction false} AgentErrorIs(lines: seq<Line>, pr: Result, ctxErr: bool, exitErr: Option<string>)
    requires Returns(lines, pr)
    ensures var err := AgentError(pr, ctxErr, exitErr);
      var errors := exists i :: 0 <= i < |lines| && ErrorLine(lines[i]);
      var spoke := exists i :: 0 <= i < |lines| && (TextLine(lines[i]) || ToolLine(lines[i]));
      && (err.None? <==> ctxErr || (!errors && exitErr.None? && spoke))
      && (!ctxErr && !errors && exitErr.Some? ==> err == Some("opencode exited: " + exitErr.value))
      && (!ctxErr && !errors && exitErr.None? && !spoke ==>
            err == Some("agent produced no output (opencode exited 0 with zero events)"))
    ensures !ctxErr ==>
      forall i :: 0 <= i < |lines| && ErrorLine(lines[i]) && (forall j :: 0 <= j < i ==> !ErrorLine(lines[j])) ==>
        AgentError(pr, ctxErr, exitErr) == Some("agent error: " + ErrorText(lines[i].error))
  {
  }

  /** A coding task is reported succeeded exactly if its agent was known, ended in time and exited
      cleanly, its stream held a text or a tool line, and none of its lines was an error; and what
      the stream made it emit never includes a terminal event. */
  lemma {:induction false} SucceededMeansOutput(id: string, w: World, lines: seq<Line>, pr: Result,
                                                exitErr: Option<string>, ctxErr: bool)
    requires Returns(lines, pr) && w.agent.emits == Emitted(lines)
    requires w.agent.err == AgentError(pr, ctxErr, exitErr)
    requires ctxErr ==> w.ctx != CtxLive
    ensures ProgressOnly(w.agent.emits)
    ensures FinalResult(id, w).status == TaskSucceeded <==>
      && w.agentKnown && w.ctx == CtxLive && exitErr.None?
      && (forall i :: 0 <= i < |lines| ==> !ErrorLine(lines[i]))
      && exists i :: 0 <= i < |lines| && (TextLine(lines[i]) || ToolLine(lines[i]))
  {
    AgentErrorIs(lines, pr, ctxErr, exitErr);
    EmittedIsProgress(lines);
  }

  lemma {:induction false} EmittedIsProgress(lines: seq<Line>)
    ensures ProgressOnly(Emitted(lines))
    decreases |lines|
  {
    if lines != [] {
      EmittedIsProgress(lines[..|lines| - 1]);
    }
  }
}
