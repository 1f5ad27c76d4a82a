// The browser widget's controller: the state the page binds to, the two
// halves of a check (the start and the completion of the request), the
// actions that clear or fill the form, the copy action, the presenters and
// the loading animation's counter.

module Widget {
  import opened Wrappers
  import opened Text

  // ---------------------------------------------------------------------
  // Glyphs
  // ---------------------------------------------------------------------

  // The script's emoji, named. The script file stores each one as the UTF-8
  // bytes of its Mac Roman misreading (the check mark as "‚úÖ", the
  // bullet separator as "‚Ä¢"); these constants are the glyphs those bytes
  // evidently stand for. The model only relies on their being distinct.

  const CheckMark := "\U{2705}"
  const WarningSign := "\U{26A0}\U{FE0F}"
  const NoEntrySign := "\U{1F6AB}"
  const QuestionMark := "\U{2753}"
  const CrossMark := "\U{274C}"
  const ClipboardSign := "\U{1F4CB}"
  const Bullet := '\U{2022}'

  // ---------------------------------------------------------------------
  // State
  // ---------------------------------------------------------------------

  /** One sub-check of a result body as the script reads it: the
      truthiness of its `checked` and `value` keys, a missing key reading as
      false. For `dns`, `value` is the truthiness of `value?.has_mx`. */
  datatype Part = Part(checked: bool, value: bool)

  /** A response body as the script reads it; `message` is empty when the
      key is missing. */
  datatype Body = Body(disposable: Part, dns: Part, wellKnown: Part, educational: Part, message: string)

  /** The component's reactive state; `None` is JavaScript's `null`. */
  datatype State = State(
    email: string,
    result: Option<Body>,
    loading: bool,
    error: Option<string>,
    showSuggestions: bool,
    showJson: bool,
    responseTime: Option<int>,
    notification: string)

  const Initial := State("", None, false, None, false, false, None, "")

  const Suggestions := [
    "test_user@gmail.com",
    "p303200@uoa.gr",
    "zerile@forexzig.com",
    "qwer1234ksnf45ms92@hotmail.com"
  ]

  /** The runes JavaScript's `String.prototype.trim` removes. Unlike Go's
      `unicode.IsSpace` this includes U+FEFF and excludes U+0085. */
  predicate JsSpace(c: char) {
    || c == ' ' || c == '\t' || c == '\n' || c == '\U{000B}' || c == '\U{000C}' || c == '\r'
    || c == '\U{00A0}' || c == '\U{1680}' || ('\U{2000}' <= c <= '\U{200A}')
    || c == '\U{2028}' || c == '\U{2029}' || c == '\U{202F}' || c == '\U{205F}' || c == '\U{3000}'
    || c == '\U{FEFF}'
  }

  /** `!s.trim()`: the text is empty once trimmed. */
  predicate Blank(s: string) {
    forall i :: 0 <= i < |s| ==> JsSpace(s[i])
  }

  // ---------------------------------------------------------------------
  // Transitions
  // ---------------------------------------------------------------------

  /** `clearStates`: the outcome of the last check and the panels are
      reset; the address, the loading flag and the notification are kept. */
  function ClearStates(w: State): (r: State)
    ensures r.result.None? && r.error.None? && r.responseTime.None?
    ensures !r.showJson && !r.showSuggestions
    ensures r.email == w.email && r.loading == w.loading && r.notification == w.notification
  {
    w.(result := None, error := None, showJson := false, responseTime := None, showSuggestions := false)
  }

  /** `clearAll`: the address is emptied and the states cleared. */
  function ClearAll(w: State): (r: State)
    ensures r.email == "" && r.result.None? && r.error.None? && r.responseTime.None?
    ensures !r.showJson && !r.showSuggestions
    ensures r.loading == w.loading && r.notification == w.notification
  {
    ClearStates(w.(email := ""))
  }

  /** Clearing twice is clearing once, and a cleared form starts no check. */
  lemma ClearAllIdempotent(w: State)
    ensures ClearAll(ClearAll(w)) == ClearAll(w)
    ensures Start(ClearAll(w)).None?
  {
  }

  /** `selectSuggestion`, up to the check it schedules: the address is
      replaced and the suggestion list closed. */
  function SelectSuggestion(w: State, suggestion: string): (r: State)
    ensures r.email == suggestion && !r.showSuggestions
    ensures r.(showSuggestions := w.showSuggestions, email := w.email) == w
  {
    w.(email := suggestion, showSuggestions := false)
  }

  /** The first part of `checkEmail`, up to the request: nothing for a
      blank address, otherwise the state while the request is out. */
  function Start(w: State): (r: Option<State>)
    ensures r.None? <==> Blank(w.email)
    ensures r.Some? ==> r.value.loading && r.value.result.None? && r.value.error.None?
    ensures r.Some? ==> r.value.responseTime.None? && !r.value.showJson && !r.value.showSuggestions
    ensures r.Some? ==> r.value.email == w.email && r.value.notification == w.notification
  {
    if Blank(w.email) then None else Some(ClearStates(w).(loading := true))
  }

  /** Each built-in suggestion, once selected, starts a check of itself. */
  lemma SuggestionsStartChecks(w: State, k: nat)
    requires k < |Suggestions|
    ensures Start(SelectSuggestion(w, Suggestions[k])).Some?
    ensures Start(SelectSuggestion(w, Suggestions[k])).value.email == Suggestions[k]
  {
    assert !JsSpace(Suggestions[k][0]);
  }

  /** How a request ends: an answer whose body parsed as JSON (with the
      response's `ok` flag and the elapsed milliseconds), or an exception
      from `fetch` or from parsing the body, with its message. */
  datatype Reply = Answered(ok: bool, data: Body, elapsed: int) | Threw(message: string)

  const FailedToCheck := "Failed to check email"

  /** The message of the error thrown for a non-ok answer. */
  function FailureMessage(data: Body): (m: string)
    ensures m != ""
    ensures m == data.message || (data.message == "" && m == FailedToCheck)
  {
    if data.message != "" then data.message else FailedToCheck
  }

  /** The rest of `checkEmail`, once the request ends: an ok answer becomes
      the result with its response time, anything else becomes the error,
      and loading ends on every path. Nothing else is touched. */
  function Complete(w: State, reply: Reply): (r: State)
    ensures !r.loading
    ensures reply.Answered? && reply.ok ==>
              r == w.(result := Some(reply.data), responseTime := Some(reply.elapsed), loading := false)
    ensures reply.Answered? && !reply.ok ==> r == w.(error := Some(FailureMessage(reply.data)), loading := false)
    ensures reply.Threw? ==> r == w.(error := Some(reply.message), loading := false)
  {
    match reply
    case Answered(ok, data, elapsed) =>
      if ok then w.(result := Some(data), responseTime := Some(elapsed), loading := false)
      else w.(error := Some(FailureMessage(data)), loading := false)
    case Threw(message) => w.(error := Some(message), loading := false)
  }

  // ---------------------------------------------------------------------
  // Sessions
  // ---------------------------------------------------------------------

  /** The state together with the number of requests still out. */
  datatype Session = Session(w: State, pending: nat)

  /** What can happen to the component: a check is triggered (the button,
      Enter, or the timer a suggestion set), a request ends, the form is
      cleared (the button or Escape), a suggestion is picked, or the
      address is edited. */
  datatype Action = Check | Settle(reply: Reply) | Clear | Select(suggestion: string) | Edit(email: string)

  /** One action. A request can only end if one is out. */
  function Step(s: Session, a: Action): Session {
    match a
    case Check => (match Start(s.w) case None => s case Some(w) => Session(w, s.pending + 1))
    case Settle(reply) => if s.pending == 0 then s else Session(Complete(s.w, reply), s.pending - 1)
    case Clear => s.(w := ClearAll(s.w))
    case Select(x) => s.(w := SelectSuggestion(s.w, x))
    case Edit(e) => s.(w := s.w.(email := e))
  }

  function Run(s: Session, actions: seq<Action>): Session
    decreases |actions|
  {
    if actions == [] then s else Run(Step(s, actions[0]), actions[1..])
  }

  /** A check is never started while another request is out. */
  predicate Serial(s: Session, actions: seq<Action>)
    decreases |actions|
  {
    actions == []
    || ((actions[0].Check? && s.pending > 0 ==> Blank(s.w.email)) && Serial(Step(s, actions[0]), actions[1..]))
  }

  /** At most one request out, exactly while loading; result and error
      never both set; neither set while loading. */
  predicate Consistent(s: Session) {
    && s.pending <= 1
    && (s.pending == 1 <==> s.w.loading)
    && !(s.w.result.Some? && s.w.error.Some?)
    && (s.w.loading ==> s.w.result.None? && s.w.error.None?)
  }

  lemma InitialConsistent()
    ensures Consistent(Session(Initial, 0))
  {
  }

  /** One action keeps the session consistent when it does not overlap a
      request. */
  lemma StepConsistent(s: Session, a: Action)
    requires Consistent(s)
    requires a.Check? && s.pending > 0 ==> Blank(s.w.email)
    ensures Consistent(Step(s, a))
  {
  }

  /** With one request at a time, the session stays consistent. */
  lemma {:induction false} SerialConsistent(s: Session, actions: seq<Action>)
    requires Consistent(s) && Serial(s, actions)
    ensures Consistent(Run(s, actions))
    decreases |actions|
  {
    if actions != [] {
      StepConsistent(s, actions[0]);
      SerialConsistent(Step(s, actions[0]), actions[1..]);
    }
  }

  /** Two overlapping checks, the first answered and the second failing,
      leave both a result and an error, and loading ends while the second
      request is still out. */
  lemma OverlapBreaksConsistency(data: Body, elapsed: int, failure: string)
    ensures var s0 := Session(Initial.(email := "a@b.c"), 0);
            var s1 := Run(s0, [Check, Check, Settle(Answered(true, data, elapsed))]);
            var s2 := Step(s1, Settle(Threw(failure)));
            && s1.pending == 1 && !s1.w.loading && !Consistent(s1)
            && s2.w.result == Some(data) && s2.w.error == Some(failure)
  {
    var s0 := Session(Initial.(email := "a@b.c"), 0);
    assert !JsSpace(s0.w.email[0]);
    var acts := [Check, Check, Settle(Answered(true, data, elapsed))];
    var a := Step(s0, Check);
    var b := Step(a, Check);
    var c := Step(b, Settle(Answered(true, data, elapsed)));
    assert b.pending == 2;
    assert acts[1..][1..][1..] == [];
    assert Run(b, acts[1..][1..]) == Run(c, acts[1..][1..][1..]);
    assert Run(a, acts[1..]) == Run(b, acts[1..][1..]);
    assert Run(s0, acts) == Run(a, acts[1..]);
  }

  // ---------------------------------------------------------------------
  // Notifications and copying
  // ---------------------------------------------------------------------

  const CopiedMessage := ClipboardSign + " JSON copied to clipboard!"
  const CopyFailedMessage := CrossMark + " Copy failed - please copy manually"

  /** `showNotification`, without the timer that clears it. */
  function ShowNotification(w: State, message: string): (r: State)
    ensures r.notification == message && r.(notification := w.notification) == w
  {
    w.(notification := message)
  }

  /** A node of the document body. */
  datatype Node = Node(id: nat, text: string)

  /** A change to the document body. */
  datatype DomEvent = Append(node: Node) | RemoveNode(id: nat)

  /** The body's children after the changes; `removeChild` drops the node
      with that identity. */
  function ApplyDom(children: seq<Node>, events: seq<DomEvent>): seq<Node>
    decreases |events|
  {
    if events == [] then children
    else
      var next := match events[0]
        case Append(n) => children + [n]
        case RemoveNode(id) => Without(children, id);
      ApplyDom(next, events[1..])
  }

  function Without(children: seq<Node>, id: nat): seq<Node>
    decreases |children|
  {
    if children == [] then []
    else (if children[0].id == id then [] else [children[0]]) + Without(children[1..], id)
  }

  predicate FreshId(children: seq<Node>, id: nat) {
    forall i :: 0 <= i < |children| ==> children[i].id != id
  }

  /** Removing an identity nobody has leaves the children as they are. */
  lemma {:induction false} WithoutFresh(children: seq<Node>, id: nat)
    requires FreshId(children, id)
    ensures Without(children, id) == children
    decreases |children|
  {
    if children != [] {
      WithoutFresh(children[1..], id);
    }
  }

  /** Removing the last node appended removes exactly it. */
  lemma {:induction false} WithoutAppended(children: seq<Node>, n: Node)
    requires FreshId(children, n.id)
    ensures Without(children + [n], n.id) == children
    decreases |children|
  {
    if children == [] {
      assert Without([n], n.id) == [] + Without([], n.id);
    } else {
      var all := children + [n];
      assert all[0] == children[0] && all[1..] == children[1..] + [n];
      assert children[0].id != n.id;
      assert Without(all, n.id) == [children[0]] + Without(children[1..] + [n], n.id);
      WithoutAppended(children[1..], n);
      assert children == [children[0]] + children[1..];
    }
  }

  /** What `document.execCommand('copy')` did. */
  datatype Exec = Copied | NotCopied | Raised

  /** What `navigator.clipboard.writeText` did. */
  datatype Clipboard = Written | Rejected

  /** A copy's effects: the notification shown and the changes to the body. */
  datatype CopyRun = CopyRun(notification: string, dom: seq<DomEvent>)

  /** `fallbackCopy`: a textarea holding the text is appended, the copy
      command is run, and the textarea is removed however it went. */
  function FallbackCopy(text: string, node: nat, exec: Exec): (r: CopyRun)
    ensures |r.dom| == 2 && r.dom[0] == Append(Node(node, text)) && r.dom[1] == RemoveNode(node)
    ensures r.notification == CopiedMessage <==> exec == Copied
    ensures r.notification == CopiedMessage || r.notification == CopyFailedMessage
  {
    assert CopiedMessage[0] != CopyFailedMessage[0];
    var message := if exec == Copied then CopiedMessage else CopyFailedMessage;
    CopyRun(message, [Append(Node(node, text)), RemoveNode(node)])
  }

  /** The fallback leaves the body as it found it, with the textarea as the
      one extra child in between. */
  lemma FallbackLeavesBody(children: seq<Node>, text: string, node: nat, exec: Exec)
    requires FreshId(children, node)
    ensures var r := FallbackCopy(text, node, exec);
            && ApplyDom(children, r.dom[..1]) == children + [Node(node, text)]
            && ApplyDom(children, r.dom) == children
  {
    var r := FallbackCopy(text, node, exec);
    var added := children + [Node(node, text)];
    assert r.dom[..1][1..] == [] && r.dom[1..][1..] == [];
    assert ApplyDom(children, r.dom[..1]) == ApplyDom(added, []);
    WithoutAppended(children, Node(node, text));
    assert ApplyDom(added, r.dom[1..]) == ApplyDom(children, []);
    assert ApplyDom(children, r.dom) == ApplyDom(added, r.dom[1..]);
  }

  /** The browser as a copy finds it: whether the Clipboard API is usable
      (present and a secure context), what it and the copy command do, and
      the identity the textarea gets. */
  datatype CopyEnv = CopyEnv(secure: bool, clipboard: Clipboard, exec: Exec, node: nat)

  /** `copyToClipboard`: nothing without a result; otherwise the result is
      serialised and copied through the Clipboard API, falling back to the
      textarea when the API is unusable or rejects. */
  function CopyToClipboard(w: State, env: CopyEnv, stringify: Body -> string): (r: Option<CopyRun>)
    ensures r.None? <==> w.result.None?
    ensures r.Some? ==>
              (r.value.notification == CopiedMessage
               <==> (env.secure && env.clipboard == Written) || env.exec == Copied)
    ensures r.Some? ==> (r.value.dom == [] <==> env.secure && env.clipboard == Written)
    ensures r.Some? && r.value.dom != [] ==> r.value.dom[0] == Append(Node(env.node, stringify(w.result.value)))
  {
    match w.result
    case None => None
    case Some(body) =>
      var text := stringify(body);
      if env.secure && env.clipboard == Written then Some(CopyRun(CopiedMessage, []))
      else Some(FallbackCopy(text, env.node, env.exec))
  }

  /** The state after a copy: only the notification changes, and only when
      there is a result. */
  function AfterCopy(w: State, env: CopyEnv, stringify: Body -> string): (r: State)
    ensures w.result.None? ==> r == w
    ensures r.(notification := w.notification) == w
  {
    match CopyToClipboard(w, env, stringify)
    case None => w
    case Some(run) => ShowNotification(w, run.notification)
  }

  // ---------------------------------------------------------------------
  // Presenters
  // ---------------------------------------------------------------------

  /** The property names every plain object inherits from
      `Object.prototype`. */
  const PrototypeKeys: set<string> := {
    "constructor", "__proto__", "hasOwnProperty", "isPrototypeOf", "propertyIsEnumerable",
    "toString", "toLocaleString", "valueOf",
    "__defineGetter__", "__defineSetter__", "__lookupGetter__", "__lookupSetter__"
  }

  /** The values an object-literal lookup can give: an own string property,
      an inherited member of `Object.prototype` (a function or the
      prototype object itself, both truthy), or `undefined`. */
  datatype JsValue = Str(s: string) | Inherited(name: string) | Undefined

  predicate Truthy(v: JsValue) {
    match v
    case Str(s) => s != ""
    case Inherited(_) => true
    case Undefined => false
  }

  /** `table[key] || fallback` on an object literal, as the script writes
      it. */
  function LookupAsWritten(table: map<string, string>, key: string, fallback: string): (v: JsValue)
    ensures key in table && table[key] != "" ==> v == Str(table[key])
    ensures key !in table && key in PrototypeKeys ==> v == Inherited(key)
    ensures key !in table && key !in PrototypeKeys ==> v == Str(fallback)
  {
    var found := if key in table then Str(table[key]) else if key in PrototypeKeys then Inherited(key) else Undefined;
    if Truthy(found) then found else Str(fallback)
  }

  /** The lookup with the fallback for every key the table does not hold
      itself. */
  function Lookup(table: map<string, string>, key: string, fallback: string): (r: string)
    ensures key in table ==> r == table[key]
    ensures key !in table ==> r == fallback
  {
    if key in table then table[key] else fallback
  }

  /** The two agree on every key except the inherited names. */
  lemma LookupAgrees(table: map<string, string>, key: string, fallback: string)
    requires forall k :: k in table ==> table[k] != ""
    requires key !in PrototypeKeys || key in table
    ensures LookupAsWritten(table, key, fallback) == Str(Lookup(table, key, fallback))
  {
  }

  const RiskEmojis: map<string, string> := map["low" := CheckMark, "medium" := WarningSign, "high" := NoEntrySign]

  const BorderClasses: map<string, string> :=
    map["low" := "border-green-500", "medium" := "border-yellow-500", "high" := "border-red-500"]

  /** `getRiskEmoji` as written. */
  function RiskEmojiAsWritten(level: string): (v: JsValue)
    ensures level !in PrototypeKeys ==> v == Str(RiskEmoji(level))
  {
    LookupAsWritten(RiskEmojis, level, QuestionMark)
  }

  /** `getBorderClass` as written. */
  function BorderClassAsWritten(level: string): (v: JsValue)
    ensures level !in PrototypeKeys ==> v == Str(BorderClass(level))
  {
    LookupAsWritten(BorderClasses, level, "border-gray-500")
  }

  /** An inherited name gets a function (or the prototype object) back
      instead of the fallback glyph or class. */
  lemma PrototypeNamesLeak()
    ensures RiskEmojiAsWritten("toString") == Inherited("toString")
    ensures BorderClassAsWritten("constructor") == Inherited("constructor")
  {
    assert "toString" in PrototypeKeys && "constructor" in PrototypeKeys;
  }

  /** `getRiskEmoji` as intended: a fixed emoji per level, the question mark
      for anything else. */
  function RiskEmoji(level: string): (r: string)
    ensures r == CheckMark || r == WarningSign || r == NoEntrySign || r == QuestionMark
    ensures r == QuestionMark <==> level != "low" && level != "medium" && level != "high"
  {
    assert CheckMark[0] != QuestionMark[0] && WarningSign[0] != QuestionMark[0] && NoEntrySign[0] != QuestionMark[0];
    Lookup(RiskEmojis, level, QuestionMark)
  }

  /** `getBorderClass` as intended: a fixed class per level, grey for
      anything else. */
  function BorderClass(level: string): (r: string)
    ensures r in {"border-green-500", "border-yellow-500", "border-red-500", "border-gray-500"}
    ensures r == "border-gray-500" <==> level != "low" && level != "medium" && level != "high"
  {
    Lookup(BorderClasses, level, "border-gray-500")
  }

  /** The three levels are told apart by both presenters. */
  lemma LevelsDistinct(a: string, b: string)
    requires a in {"low", "medium", "high"} && b in {"low", "medium", "high"} && a != b
    ensures RiskEmoji(a) != RiskEmoji(b) && BorderClass(a) != BorderClass(b)
  {
    assert CheckMark[0] != WarningSign[0] && CheckMark[0] != NoEntrySign[0] && WarningSign[0] != NoEntrySign[0];
    assert "border-green-500"[7] != "border-yellow-500"[7] && "border-green-500"[7] != "border-red-500"[7];
  }

  /** The separator of the summary's parts. */
  const Separator := [' ', Bullet, ' ']

  /** The parts of the quick summary, in order. */
  function SummaryParts(b: Body): seq<string> {
    (if b.disposable.checked then ["Disposable: " + (if b.disposable.value then CrossMark else CheckMark)] else [])
    + (if b.dns.checked then ["DNS: " + (if b.dns.value then CheckMark else CrossMark)] else [])
    + (if b.wellKnown.checked then ["Known provider: " + (if b.wellKnown.value then CheckMark else QuestionMark)] else [])
    + (if b.educational.checked && b.educational.value then ["Educational: " + CheckMark] else [])
  }

  /** `getQuickSummary`. */
  function QuickSummary(result: Option<Body>): (r: string)
    ensures result.None? ==> r == ""
  {
    if result.None? then "" else Join(SummaryParts(result.value), Separator)
  }

  /** How many parts the summary has: one per checked sub-check, and the
      educational one only when the address is educational. */
  function Shown(b: Body): nat {
    (if b.disposable.checked then 1 else 0) + (if b.dns.checked then 1 else 0)
    + (if b.wellKnown.checked then 1 else 0) + (if b.educational.checked && b.educational.value then 1 else 0)
  }

  lemma {:induction false} CountAppend(a: string, b: string, c: char)
    ensures Count(a + b, c) == Count(a, c) + Count(b, c)
    decreases |a|
  {
    if a != [] {
      assert (a + b)[0] == a[0] && (a + b)[1..] == a[1..] + b;
      CountAppend(a[1..], b, c);
    } else {
      assert a + b == b;
    }
  }

  /** Joining parts free of the bullet puts exactly one bullet between
      each neighbouring pair. */
  lemma {:induction false} BulletsInJoin(parts: seq<string>)
    requires parts != []
    requires forall i :: 0 <= i < |parts| ==> Bullet !in parts[i]
    ensures Count(Join(parts, Separator), Bullet) == |parts| - 1
    decreases |parts|
  {
    if |parts| > 1 {
      BulletsInJoin(parts[1..]);
      CountAppend(parts[0] + Separator, Join(parts[1..], Separator), Bullet);
      CountAppend(parts[0], Separator, Bullet);
      assert Count(Separator, Bullet) == 1;
    }
  }

  /** The summary is empty exactly when nothing is shown; otherwise it
      holds one bullet fewer than it has parts, each part being a shown
      sub-check. */
  lemma SummaryShape(b: Body)
    ensures |SummaryParts(b)| == Shown(b)
    ensures QuickSummary(Some(b)) == "" <==> Shown(b) == 0
    ensures Shown(b) > 0 ==> Count(QuickSummary(Some(b)), Bullet) == Shown(b) - 1
  {
    var parts := SummaryParts(b);
    assert forall i :: 0 <= i < |parts| ==> Bullet !in parts[i] && parts[i] != "";
    if parts != [] {
      BulletsInJoin(parts);
      assert HasPrefix(Join(parts, Separator), parts[0]) by { JoinStartsWithFirst(parts); }
    }
  }

  lemma JoinStartsWithFirst(parts: seq<string>)
    requires parts != []
    ensures HasPrefix(Join(parts, Separator), parts[0])
  {
    if |parts| > 1 {
      assert Join(parts, Separator) == parts[0] + (Separator + Join(parts[1..], Separator));
    }
  }

  /** A checked disposable sub-check leads the summary, with a cross for a
      disposable address and a check mark otherwise. */
  lemma DisposableLeads(b: Body)
    requires b.disposable.checked
    ensures HasPrefix(QuickSummary(Some(b)), "Disposable: " + (if b.disposable.value then CrossMark else CheckMark))
  {
    JoinStartsWithFirst(SummaryParts(b));
  }

  /** An educational address ends the summary; a non-educational one is
      never mentioned. */
  lemma EducationalLast(b: Body)
    ensures b.educational.checked && b.educational.value ==>
              var r := QuickSummary(Some(b));
              var tail := "Educational: " + CheckMark;
              |tail| <= |r| && r[|r| - |tail|..] == tail
    ensures !(b.educational.checked && b.educational.value) ==>
              forall i :: 0 <= i < |SummaryParts(b)| ==> SummaryParts(b)[i][0] != 'E'
  {
    var parts := SummaryParts(b);
    if b.educational.checked && b.educational.value {
      JoinEndsWithLast(parts);
    }
  }

  lemma {:induction false} JoinEndsWithLast(parts: seq<string>)
    requires parts != []
    ensures var r := Join(parts, Separator);
            var last := parts[|parts| - 1];
            |last| <= |r| && r[|r| - |last|..] == last
    decreases |parts|
  {
    if |parts| > 1 {
      JoinEndsWithLast(parts[1..]);
      var rest := Join(parts[1..], Separator);
      var r := parts[0] + Separator + rest;
      assert Join(parts, Separator) == r;
      var last := parts[|parts| - 1];
      assert parts[1..][|parts[1..]| - 1] == last;
      assert r[|r| - |last|..] == rest[|rest| - |last|..];
    }
  }

  /** The scenario of a low-risk address checked for disposability only. */
  lemma OnlyDisposableSummary()
    ensures QuickSummary(Some(Body(Part(true, false), Part(false, false), Part(false, false), Part(false, false), "")))
            == "Disposable: " + CheckMark
  {
  }

  // ---------------------------------------------------------------------
  // Loading animation
  // ---------------------------------------------------------------------

  const Dots := ["   ", ".  ", ".. ", "..."]

  const SpinnerChars := [
    "\U{280B}", "\U{2819}", "\U{2839}", "\U{2838}", "\U{283C}",
    "\U{2834}", "\U{2826}", "\U{2827}", "\U{2807}", "\U{280F}"
  ]

  /** The animation's counter and what its two elements show. */
  datatype Animation = Animation(index: nat, spinner: string, text: string)

  /** One 100 ms tick of `setupLoadingAnimation`: while loading and with a
      spinner on the page, the frame for the counter is shown (the text only
      if its element is there) and the counter advances modulo 10; otherwise
      nothing happens. */
  function Tick(a: Animation, loading: bool, spinnerShown: bool, textShown: bool): (r: Animation)
    requires a.index < |SpinnerChars|
    ensures r.index < |SpinnerChars|
    ensures r.index != a.index <==> loading && spinnerShown
    ensures loading && spinnerShown ==>
              && r.index == (a.index + 1) % 10
              && r.spinner == SpinnerChars[a.index]
              && r.text == (if textShown then "Analyzing email" + Dots[a.index % 4] else a.text)
    ensures !(loading && spinnerShown) ==> r == a
  {
    if spinnerShown && loading then
      var text := if textShown then "Analyzing email" + Dots[a.index % 4] else a.text;
      Animation((a.index + 1) % |SpinnerChars|, SpinnerChars[a.index], text)
    else a
  }

  /** `n` ticks while loading. */
  function Ticks(a: Animation, n: nat): (r: Animation)
    requires a.index < |SpinnerChars|
    ensures r.index < |SpinnerChars|
    decreases n
  {
    if n == 0 then a else Ticks(Tick(a, true, true, true), n - 1)
  }

  /** After `n` ticks while loading the counter has moved on by `n`, modulo
      the ten spinner frames. */
  lemma {:induction false} TicksAdvance(a: Animation, n: nat)
    requires a.index < |SpinnerChars|
    ensures Ticks(a, n).index == (a.index + n) % 10
    decreases n
  {
    if n > 0 {
      var next := Tick(a, true, true, true);
      TicksAdvance(next, n - 1);
      assert Ticks(a, n) == Ticks(next, n - 1);
      ModStep(a.index, n);
    }
  }

  lemma ModStep(i: nat, n: nat)
    requires i < 10 && n > 0
    ensures ((i + 1) % 10 + (n - 1)) % 10 == (i + n) % 10
  {
    if i == 9 {
      assert (i + 1) % 10 == 0;
      assert i + n == (n - 1) + 10;
    } else {
      assert (i + 1) % 10 == i + 1;
    }
  }

  /** The ellipsis does not run on across the spinner's wrap: ten frames
      is not a whole number of four-frame cycles, so after the tenth frame
      (one dot) it restarts from none. */
  lemma EllipsisRestartsAtWrap(a: Animation)
    requires a.index == 9
    ensures Tick(a, true, true, true).text == "Analyzing email" + ".  "
    ensures Tick(Tick(a, true, true, true), true, true, true).text == "Analyzing email" + "   "
  {
  }
}
