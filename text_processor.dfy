/**
 * ITextProcessorCore and the processor factory: the five text processors as
 * one closed datatype. Each case holds a reference to the processor object, so
 * rules added to it after it was handed out are seen by whoever holds it.
 */
module TextProcessors {
  import opened Platform
  import TextReplacing
  import TextDeleting
  import TextPrefixing
  import RegexReplacing
  import CaseChanging

  datatype ProcessorKind =
    | RegexReplacerKind | ChangeCaseKind | TextDeleterKind | TextPrefixerKind | TextReplacerKind

  /** GetName() of each processor: the key a RenamerBuilder files it under. */
  function Name(kind: ProcessorKind): string
  {
    match kind
    case RegexReplacerKind => "RegexReplacer"
    case ChangeCaseKind => "Change Case"
    case TextDeleterKind => "TextDeleter"
    case TextPrefixerKind => "TextPrefixer"
    case TextReplacerKind => "TextReplacer"
  }

  /** No two kinds share a name, so a name identifies its kind. */
  lemma NamesIdentifyKinds(a: ProcessorKind, b: ProcessorKind)
    ensures Name(a) == Name(b) <==> a == b
  {
    if a != b {
      assert Name(a)[0] != Name(b)[0] || Name(a)[4] != Name(b)[4] || |Name(a)| != |Name(b)|;
    }
  }

  datatype Processor =
    | RegexProcessor(regexReplacer: RegexReplacing.RegexReplacer)
    | CaseProcessor(caseChanger: CaseChanging.TextCaseChanger)
    | DeleterProcessor(deleter: TextDeleting.TextDeleter)
    | PrefixerProcessor(prefixer: TextPrefixing.TextPrefixer)
    | ReplacerProcessor(replacer: TextReplacing.TextReplacer)

  function Kind(p: Processor): ProcessorKind
  {
    match p
    case RegexProcessor(_) => RegexReplacerKind
    case CaseProcessor(_) => ChangeCaseKind
    case DeleterProcessor(_) => TextDeleterKind
    case PrefixerProcessor(_) => TextPrefixerKind
    case ReplacerProcessor(_) => TextReplacerKind
  }

  /** The processor object itself. */
  function Target(p: Processor): object
  {
    match p
    case RegexProcessor(r) => r
    case CaseProcessor(c) => c
    case DeleterProcessor(d) => d
    case PrefixerProcessor(x) => x
    case ReplacerProcessor(x) => x
  }

  ghost predicate Valid(p: Processor)
    reads Target(p)
  {
    match p
    case RegexProcessor(r) => r.Valid()
    case CaseProcessor(_) => true
    case DeleterProcessor(d) => d.Valid()
    case PrefixerProcessor(x) => x.Valid()
    case ReplacerProcessor(x) => x.Valid()
  }

  /** What a processor does, as a value: its rules, or its target case, as
      they stand at one moment. */
  datatype Behaviour =
    | RegexRules(regexRules: seq<(string, string)>)
    | CaseOf(textCase: CaseChanging.TextCase)
    | DeleteRules(deleteRules: seq<string>)
    | PrefixRules(prefixRules: seq<string>)
    | ReplaceRules(replaceRules: seq<(string, string)>)

  /** The rules AddRule can produce: none has an empty pattern. */
  predicate ValidBehaviour(b: Behaviour)
  {
    match b
    case RegexRules(rules) => RegexReplacing.ValidRules(rules)
    case CaseOf(_) => true
    case DeleteRules(rules) => TextDeleting.ValidRules(rules)
    case PrefixRules(rules) => TextPrefixing.ValidRules(rules)
    case ReplaceRules(rules) => TextReplacing.ValidRules(rules)
  }

  /** The processor's configuration as it is now. */
  function Snapshot(p: Processor): (b: Behaviour)
    reads Target(p)
    ensures Valid(p) ==> ValidBehaviour(b)
  {
    match p
    case RegexProcessor(r) => RegexRules(r.rules)
    case CaseProcessor(c) => CaseOf(c.targetCase)
    case DeleterProcessor(d) => DeleteRules(d.rules)
    case PrefixerProcessor(x) => PrefixRules(x.rules)
    case ReplacerProcessor(x) => ReplaceRules(x.rules)
  }

  /** What Run(s) returns for a processor so configured. */
  function Transform(b: Behaviour, s: string, services: Services): string
    requires ValidBehaviour(b)
  {
    match b
    case RegexRules(rules) => RegexReplacing.RegexReplaced(rules, s, services.regexReplace)
    case CaseOf(textCase) => CaseChanging.ChangeCase(textCase, s, services.toTitleCase)
    case DeleteRules(rules) => TextDeleting.Deleted(rules, s)
    case PrefixRules(rules) => TextPrefixing.Prefixed(rules, s)
    case ReplaceRules(rules) => TextReplacing.Replaced(rules, s)
  }

  /** ITextProcessorCore.Run, dispatched to the processor's own Run. */
  method Run(p: Processor, s: string, services: Services) returns (r: string)
    requires Valid(p)
    ensures r == Transform(Snapshot(p), s, services)
  {
    match p {
      case RegexProcessor(x) => r := x.Run(s, services.regexReplace);
      case CaseProcessor(x) => r := x.Run(s, services.toTitleCase);
      case DeleterProcessor(x) => r := x.Run(s);
      case PrefixerProcessor(x) => r := x.Run(s);
      case ReplacerProcessor(x) => r := x.Run(s);
    }
  }

  /** A processor as Create() leaves it: no rules, or sentence case. */
  predicate IsInitial(p: Processor)
    reads Target(p)
  {
    match p
    case RegexProcessor(r) => r.rules == []
    case CaseProcessor(c) => c.targetCase == CaseChanging.SentenceCase
    case DeleterProcessor(d) => d.rules == []
    case PrefixerProcessor(x) => x.rules == []
    case ReplacerProcessor(x) => x.rules == []
  }

  /** The static Create() of the processor of the given kind. */
  method Create(kind: ProcessorKind) returns (p: Processor)
    ensures Kind(p) == kind && fresh(Target(p))
    ensures Valid(p) && IsInitial(p)
  {
    match kind {
      case RegexReplacerKind => var x := new RegexReplacing.RegexReplacer(); p := RegexProcessor(x);
      case ChangeCaseKind => var x := new CaseChanging.TextCaseChanger(); p := CaseProcessor(x);
      case TextDeleterKind => var x := new TextDeleting.TextDeleter(); p := DeleterProcessor(x);
      case TextPrefixerKind => var x := new TextPrefixing.TextPrefixer(); p := PrefixerProcessor(x);
      case TextReplacerKind => var x := new TextReplacing.TextReplacer(); p := ReplacerProcessor(x);
    }
  }

  /** A freshly created processor: the regex replacer maps everything to "",
      the case changer puts text in sentence case, and the other three leave
      text as it is. */
  lemma InitialBehaviour(p: Processor, s: string, services: Services)
    requires Valid(p) && IsInitial(p)
    ensures Kind(p) == RegexReplacerKind ==> Transform(Snapshot(p), s, services) == []
    ensures Kind(p) == ChangeCaseKind ==>
      Transform(Snapshot(p), s, services) == CaseChanging.ChangeCase(CaseChanging.SentenceCase, s, services.toTitleCase)
    ensures Kind(p) in {TextDeleterKind, TextPrefixerKind, TextReplacerKind} ==> Transform(Snapshot(p), s, services) == s
  {
  }

  /** The objects behind a list of processors. */
  function Objects(ps: seq<Processor>): set<object>
  {
    set i | 0 <= i < |ps| :: Target(ps[i])
  }

  ghost predicate AllValid(ps: seq<Processor>)
    reads Objects(ps)
  {
    forall i :: 0 <= i < |ps| ==> Valid(ps[i])
  }

  /** The configuration of every processor in the list, in list order. */
  function Snapshots(ps: seq<Processor>): (bs: seq<Behaviour>)
    reads Objects(ps)
    ensures |bs| == |ps|
    ensures AllValid(ps) ==> forall i :: 0 <= i < |bs| ==> ValidBehaviour(bs[i])
  {
    seq(|ps|, i requires 0 <= i < |ps| reads Objects(ps) => assert Target(ps[i]) in Objects(ps); Snapshot(ps[i]))
  }

  predicate AllValidBehaviours(bs: seq<Behaviour>)
  {
    forall i :: 0 <= i < |bs| ==> ValidBehaviour(bs[i])
  }

  /** The processors applied in list order, each to the output of the one
      before it. */
  function ApplyChain(bs: seq<Behaviour>, s: string, services: Services): string
    requires AllValidBehaviours(bs)
  {
    if bs == [] then s
    else Transform(bs[|bs| - 1], ApplyChain(bs[..|bs| - 1], s, services), services)
  }

  /** The first processor in the list is the first to see the text. */
  lemma {:induction false} ChainFirst(b: Behaviour, bs: seq<Behaviour>, s: string, services: Services)
    requires AllValidBehaviours([b] + bs)
    ensures AllValidBehaviours(bs) && ValidBehaviour(b)
    ensures ApplyChain([b] + bs, s, services) == ApplyChain(bs, Transform(b, s, services), services)
    decreases |bs|
  {
    var all := [b] + bs;
    assert all[0] == b;
    assert forall i :: 0 <= i < |bs| ==> bs[i] == all[i + 1];
    if bs == [] {
      assert all[..0] == [];
    } else {
      var init := bs[..|bs| - 1];
      assert all[..|all| - 1] == [b] + init;
      assert forall i :: 0 <= i < |init| ==> init[i] == bs[i];
      ChainFirst(b, init, s, services);
    }
  }
}
