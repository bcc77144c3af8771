/** Layered service descriptors: upk_svc_desc_clear and upk_overlay_svcconf_values. */
module Overlay {
  datatype Field =
    | StartPriority | Uuid | KillTimeout | MaxConsecutiveFailures | UserMaxRestarts | UserRestartWindow
    | UserRateLimit | RandomizeRateLimit | SetUID | SetGID | RingbufferSize | ReconnectRetries | InitialState
    | UnconfigureOnFileRemoval | PreferBuddyStateForStopped | PreferBuddyStateForRunning
    | Name | Package | ShortDescription | LongDescription | ExecStart | StartScript | ExecStop | StopScript
    | ExecReload | ReloadScript | PipeStdoutScript | PipeStderrScript | RedirectStdout | RedirectStderr

  datatype Value = Number(n: int) | Text(s: string)

  /**
   The value of a field that no layer has set. SetUID, SetGID and RingbufferSize are unsigned, of 32, 32
   and 64 bits.
   */
  function Unset(f: Field): Value {
    match f
    case StartPriority | KillTimeout | MaxConsecutiveFailures | UserMaxRestarts | UserRestartWindow
       | UserRateLimit | ReconnectRetries => Number(-0x8000_0000)
    case SetUID | SetGID => Number(0x8000_0000)
    case RingbufferSize => Number(0xFFFF_FFFF_8000_0000)
    case RandomizeRateLimit | UnconfigureOnFileRemoval | PreferBuddyStateForStopped
       | PreferBuddyStateForRunning => Number(-0x80)
    case Uuid | InitialState => Number(0)
    case _ => Text("")
  }

  /** Every field has a value of its own kind. */
  predicate Total(m: map<Field, Value>) {
    forall f: Field :: f in m && (m[f].Text? <==> Unset(f).Text?)
  }

  type Fields = m: map<Field, Value> | Total(m) witness Blank()

  function Blank(): (m: map<Field, Value>)
    ensures Total(m)
  {
    map f: Field | true :: Unset(f)
  }

  datatype Id = Id(pkg: string, name: string)
  datatype Action = Action(name: string, script: string)

  /** A descriptor. StartupDelay stands for the fields that overlaying leaves alone. */
  datatype Layer = Layer(
    fields: Fields, provided: seq<Id>, prerequisites: seq<Id>, actions: seq<Action>, startupDelay: int)

  function Cleared(): Layer {
    Layer(Blank(), [], [], [], 0)
  }

  predicate Sets(l: Layer, f: Field) {
    l.fields[f] != Unset(f)
  }

  function MergeFields(low: Fields, high: Fields): Fields {
    map f: Field | true :: if high[f] != Unset(f) then high[f] else low[f]
  }

  /** The fields in the order in which they are overlaid, which the lists do not depend on. */
  function Order(): seq<Field> {
    [
      StartPriority, Name, Package, Uuid, ShortDescription, LongDescription, KillTimeout,
      MaxConsecutiveFailures, UserMaxRestarts, UserRestartWindow, UserRateLimit, RandomizeRateLimit, SetUID,
      SetGID, RingbufferSize, ReconnectRetries, ExecStart, StartScript, ExecStop, StopScript, ExecReload,
      ReloadScript, PipeStdoutScript, PipeStderrScript, RedirectStdout, RedirectStderr, InitialState,
      UnconfigureOnFileRemoval, PreferBuddyStateForStopped, PreferBuddyStateForRunning
    ]
  }

  /** The place of a field in that order. */
  function Place(f: Field): nat {
    match f
    case StartPriority => 0
    case Name => 1
    case Package => 2
    case Uuid => 3
    case ShortDescription => 4
    case LongDescription => 5
    case KillTimeout => 6
    case MaxConsecutiveFailures => 7
    case UserMaxRestarts => 8
    case UserRestartWindow => 9
    case UserRateLimit => 10
    case RandomizeRateLimit => 11
    case SetUID => 12
    case SetGID => 13
    case RingbufferSize => 14
    case ReconnectRetries => 15
    case ExecStart => 16
    case StartScript => 17
    case ExecStop => 18
    case StopScript => 19
    case ExecReload => 20
    case ReloadScript => 21
    case PipeStdoutScript => 22
    case PipeStderrScript => 23
    case RedirectStdout => 24
    case RedirectStderr => 25
    case InitialState => 26
    case UnconfigureOnFileRemoval => 27
    case PreferBuddyStateForStopped => 28
    case PreferBuddyStateForRunning => 29
  }

  lemma EveryFieldListed(f: Field)
    ensures Place(f) < |Order()| && Order()[Place(f)] == f
  {
  }

  lemma PlacesDiffer(f: Field, g: Field)
    ensures Place(f) == Place(g) ==> f == g
  {
    hide Place, Order;
    EveryFieldListed(f);
    EveryFieldListed(g);
  }

  /** The lower layer after the higher one has been laid over it. */
  function Merge(low: Layer, high: Layer): Layer {
    Layer(MergeFields(low.fields, high.fields), low.provided + high.provided,
          low.prerequisites + high.prerequisites,
          if high.actions != [] then high.actions else low.actions, low.startupDelay)
  }

  /** Merged so far, when k statements have been executed. */
  function MergeUpTo(low: Fields, high: Fields, k: nat): Fields {
    map f: Field | true :: if Place(f) < k && high[f] != Unset(f) then high[f] else low[f]
  }

  lemma MergeStep(low: Fields, high: Fields, f: Field)
    ensures MergeUpTo(low, high, Place(f) + 1)
         == MergeUpTo(low, high, Place(f))[f := if high[f] != Unset(f) then high[f] else low[f]]
  {
    forall g: Field
      ensures Place(f) == Place(g) ==> f == g
    {
      PlacesDiffer(f, g);
    }
    hide Place, Unset;
  }

  lemma MergeEnds(low: Fields, high: Fields)
    ensures MergeUpTo(low, high, 0) == low && MergeUpTo(low, high, |Order()|) == MergeFields(low, high)
  {
  }

  /** One statement of the overlay: the field is taken from the higher layer if that sets it. */
  method OverlayField(current: Fields, high: Fields, f: Field, ghost low: Fields) returns (next: Fields)
    requires current == MergeUpTo(low, high, Place(f))
    ensures next == MergeUpTo(low, high, Place(f) + 1)
  {
    MergeStep(low, high, f);
    hide Place;
    next := current;
    if high[f] != Unset(f) {
      next := next[f := high[f]];
    }
  }

  /** Who the service is. */
  method OverlayIdentity(current: Fields, high: Fields, ghost low: Fields) returns (next: Fields)
    requires current == MergeUpTo(low, high, 0)
    ensures next == MergeUpTo(low, high, 6)
  {
    hide MergeUpTo, Unset, Total, Order;
    next := current;
    next := OverlayField(next, high, StartPriority, low);
    next := OverlayField(next, high, Name, low);
    next := OverlayField(next, high, Package, low);
    next := OverlayField(next, high, Uuid, low);
    next := OverlayField(next, high, ShortDescription, low);
    next := OverlayField(next, high, LongDescription, low);
  }

  /** How it is run and limited. */
  method OverlayLimits(current: Fields, high: Fields, ghost low: Fields) returns (next: Fields)
    requires current == MergeUpTo(low, high, 6)
    ensures next == MergeUpTo(low, high, 16)
  {
    hide MergeUpTo, Unset, Total, Order;
    next := current;
    next := OverlayField(next, high, KillTimeout, low);
    next := OverlayField(next, high, MaxConsecutiveFailures, low);
    next := OverlayField(next, high, UserMaxRestarts, low);
    next := OverlayField(next, high, UserRestartWindow, low);
    next := OverlayField(next, high, UserRateLimit, low);
    next := OverlayField(next, high, RandomizeRateLimit, low);
    next := OverlayField(next, high, SetUID, low);
    next := OverlayField(next, high, SetGID, low);
    next := OverlayField(next, high, RingbufferSize, low);
    next := OverlayField(next, high, ReconnectRetries, low);
  }

  /** What is executed. */
  method OverlayScripts(current: Fields, high: Fields, ghost low: Fields) returns (next: Fields)
    requires current == MergeUpTo(low, high, 16)
    ensures next == MergeUpTo(low, high, 24)
  {
    hide MergeUpTo, Unset, Total, Order;
    next := current;
    next := OverlayField(next, high, ExecStart, low);
    next := OverlayField(next, high, StartScript, low);
    next := OverlayField(next, high, ExecStop, low);
    next := OverlayField(next, high, StopScript, low);
    next := OverlayField(next, high, ExecReload, low);
    next := OverlayField(next, high, ReloadScript, low);
    next := OverlayField(next, high, PipeStdoutScript, low);
    next := OverlayField(next, high, PipeStderrScript, low);
  }

  /** Where its output goes, and how its state is kept. */
  method OverlayRest(current: Fields, high: Fields, ghost low: Fields) returns (next: Fields)
    requires current == MergeUpTo(low, high, 24)
    ensures next == MergeUpTo(low, high, 30)
  {
    hide MergeUpTo, Unset, Total, Order;
    next := current;
    next := OverlayField(next, high, RedirectStdout, low);
    next := OverlayField(next, high, RedirectStderr, low);
    next := OverlayField(next, high, InitialState, low);
    next := OverlayField(next, high, UnconfigureOnFileRemoval, low);
    next := OverlayField(next, high, PreferBuddyStateForStopped, low);
    next := OverlayField(next, high, PreferBuddyStateForRunning, low);
  }

  class Descriptor {
    var fields: Fields
    var provided: seq<Id>
    var prerequisites: seq<Id>
    var actions: seq<Action>
    var startupDelay: int

    function Content(): Layer
      reads this
    {
      Layer(fields, provided, prerequisites, actions, startupDelay)
    }

    /** upk_svc_desc_clear, on a new descriptor. */
    constructor ()
      ensures Content() == Cleared()
    {
      fields, provided, prerequisites, actions, startupDelay := Blank(), [], [], [], 0;
    }

    /** The statements for the fields. */
    method OverlayFields(high: Descriptor)
      requires high != this
      modifies this`fields
      ensures fields == MergeFields(old(fields), high.fields)
    {
      MergeEnds(fields, high.fields);
      hide MergeUpTo, MergeFields, Place;
      ghost var low := fields;
      fields := OverlayIdentity(fields, high.fields, low);
      fields := OverlayLimits(fields, high.fields, low);
      fields := OverlayScripts(fields, high.fields, low);
      fields := OverlayRest(fields, high.fields, low);
    }

    /** upk_overlay_svcconf_values: field by field, then the lists. */
    method OverlayValues(high: Descriptor)
      requires high != this
      modifies this
      ensures Content() == Merge(old(Content()), high.Content())
    {
      OverlayFields(high);
      provided := provided + high.provided;
      prerequisites := prerequisites + high.prerequisites;
      if high.actions != [] {
        actions := high.actions;
      }
    }
  }

  // ---- in words ----

  /** The value of this field of the higher layer counts, unless it is this one. */
  predicate Overlaid(low: Layer, high: Layer, f: Field, sentinel: Value) {
    && Merge(low, high).fields[f] == (if high.fields[f] == sentinel then low.fields[f] else high.fields[f])
    && Cleared().fields[f] == sentinel
  }

  predicate SignedField(f: Field) {
    || f == StartPriority || f == KillTimeout || f == MaxConsecutiveFailures || f == UserMaxRestarts
    || f == UserRestartWindow || f == UserRateLimit || f == ReconnectRetries
  }

  predicate FlagField(f: Field) {
    || f == RandomizeRateLimit || f == UnconfigureOnFileRemoval || f == PreferBuddyStateForStopped
    || f == PreferBuddyStateForRunning
  }

  predicate TextField(f: Field) {
    || f == Name || f == Package || f == ShortDescription || f == LongDescription
    || f == ExecStart || f == StartScript || f == ExecStop || f == StopScript || f == ExecReload || f == ReloadScript
    || f == PipeStdoutScript || f == PipeStderrScript || f == RedirectStdout || f == RedirectStderr
  }

  lemma OverlaidByUnset(low: Layer, high: Layer, f: Field)
    ensures Overlaid(low, high, f, Unset(f))
  {
    hide Unset;
  }

  /**
   The value that stands for a field not set, field by field: the least 32-bit integer, also where the field is
   unsigned; the least 8-bit integer; zero for the UUID and the initial state; and the empty text.
   */
  lemma OverlayInWords(low: Layer, high: Layer, f: Field)
    ensures SignedField(f) ==> Overlaid(low, high, f, Number(-2_147_483_648))
    ensures f == SetUID || f == SetGID ==> Overlaid(low, high, f, Number(2_147_483_648))
    ensures f == RingbufferSize ==> Overlaid(low, high, f, Number(18_446_744_071_562_067_968))
    ensures FlagField(f) ==> Overlaid(low, high, f, Number(-128))
    ensures f == Uuid || f == InitialState ==> Overlaid(low, high, f, Number(0))
    ensures TextField(f) ==> Overlaid(low, high, f, Text(""))
  {
    OverlaidByUnset(low, high, f);
    UnsetInWords(f);
    hide Overlaid, Unset, Total, SignedField, FlagField, TextField;
  }

  lemma UnsetInWords(f: Field)
    ensures SignedField(f) ==> Unset(f) == Number(-2_147_483_648)
    ensures f == SetUID || f == SetGID ==> Unset(f) == Number(2_147_483_648)
    ensures f == RingbufferSize ==> Unset(f) == Number(18_446_744_071_562_067_968)
    ensures FlagField(f) ==> Unset(f) == Number(-128)
    ensures f == Uuid || f == InitialState ==> Unset(f) == Number(0)
    ensures TextField(f) ==> Unset(f) == Text("")
  {
    hide Unset;
    if SignedField(f) {
      UnsetSigned(f);
    } else if FlagField(f) {
      UnsetFlag(f);
    } else if TextField(f) {
      UnsetText(f);
    } else {
      UnsetOther();
    }
  }

  lemma UnsetSigned(f: Field)
    requires SignedField(f)
    ensures Unset(f) == Number(-2_147_483_648)
  {
  }

  lemma UnsetFlag(f: Field)
    requires FlagField(f)
    ensures Unset(f) == Number(-128)
  {
  }

  lemma UnsetText(f: Field)
    requires TextField(f)
    ensures Unset(f) == Text("")
  {
  }

  lemma UnsetOther()
    ensures Unset(SetUID) == Unset(SetGID) == Number(2_147_483_648)
    ensures Unset(RingbufferSize) == Number(18_446_744_071_562_067_968)
    ensures Unset(Uuid) == Unset(InitialState) == Number(0)
  {
  }

  /** The lists, and the fields that overlaying leaves alone. */
  lemma ListsInWords(low: Layer, high: Layer)
    ensures var m := Merge(low, high);
      && m.provided == low.provided + high.provided && m.prerequisites == low.prerequisites + high.prerequisites
      && m.actions == (if |high.actions| == 0 then low.actions else high.actions)
      && m.startupDelay == low.startupDelay
    ensures var c := Cleared();
      c.provided == [] && c.prerequisites == [] && c.actions == [] && c.startupDelay == 0
  {
  }

  // ---- laws ----

  /** Layers may be merged in any grouping. */
  lemma MergeAssociative(a: Layer, b: Layer, c: Layer)
    ensures Merge(Merge(a, b), c) == Merge(a, Merge(b, c))
  {
    assert a.provided + b.provided + c.provided == a.provided + (b.provided + c.provided);
    assert a.prerequisites + b.prerequisites + c.prerequisites == a.prerequisites + (b.prerequisites + c.prerequisites);
  }

  /** A cleared layer changes nothing, and laid under a layer loses only what overlaying leaves alone. */
  lemma ClearedIsIdentity(l: Layer)
    ensures Merge(l, Cleared()) == l
    ensures Merge(Cleared(), l) == l <==> l.startupDelay == 0
  {
    assert MergeFields(l.fields, Blank()) == l.fields;
    assert MergeFields(Blank(), l.fields) == l.fields;
  }

  /** Layers laid one after the other over a first. */
  function Pile(base: Layer, layers: seq<Layer>): Layer {
    if layers == [] then base
    else Merge(Pile(base, layers[..|layers| - 1]), layers[|layers| - 1])
  }

  /** Each field has the value of the last layer that sets it. */
  lemma {:induction false} LastSetWins(base: Layer, layers: seq<Layer>, f: Field, k: nat)
    requires k < |layers| && Sets(layers[k], f)
    requires forall j :: k < j < |layers| ==> !Sets(layers[j], f)
    ensures Pile(base, layers).fields[f] == layers[k].fields[f]
  {
    if k < |layers| - 1 {
      LastSetWins(base, layers[..|layers| - 1], f, k);
    }
  }

  /** A field that no layer sets keeps the value it had below. */
  lemma {:induction false} NeverSetStays(base: Layer, layers: seq<Layer>, f: Field)
    requires forall j :: 0 <= j < |layers| ==> !Sets(layers[j], f)
    ensures Pile(base, layers).fields[f] == base.fields[f]
  {
    if layers != [] {
      NeverSetStays(base, layers[..|layers| - 1], f);
    }
  }

  /** The action list is the last one that is not empty. */
  lemma {:induction false} LastActionsWin(base: Layer, layers: seq<Layer>, k: nat)
    requires k < |layers| && layers[k].actions != []
    requires forall j :: k < j < |layers| ==> layers[j].actions == []
    ensures Pile(base, layers).actions == layers[k].actions
  {
    if k < |layers| - 1 {
      LastActionsWin(base, layers[..|layers| - 1], k);
    }
  }

  function Flatten(layers: seq<Layer>, list: Layer -> seq<Id>): seq<Id> {
    if layers == [] then [] else list(layers[0]) + Flatten(layers[1..], list)
  }

  lemma {:induction false} FlattenSnoc(layers: seq<Layer>, last: Layer, list: Layer -> seq<Id>)
    ensures Flatten(layers + [last], list) == Flatten(layers, list) + list(last)
  {
    if layers == [] {
      assert (layers + [last])[1..] == [];
    } else {
      assert (layers + [last])[1..] == layers[1..] + [last];
      FlattenSnoc(layers[1..], last, list);
    }
  }

  /** What the layers provide and require is listed layer by layer, from the lowest up. */
  lemma {:induction false} ListsJoin(base: Layer, layers: seq<Layer>)
    ensures Pile(base, layers).provided == base.provided + Flatten(layers, (l: Layer) => l.provided)
    ensures Pile(base, layers).prerequisites == base.prerequisites + Flatten(layers, (l: Layer) => l.prerequisites)
  {
    if layers != [] {
      var front, last := layers[..|layers| - 1], layers[|layers| - 1];
      ListsJoin(base, front);
      FlattenSnoc(front, last, (l: Layer) => l.provided);
      FlattenSnoc(front, last, (l: Layer) => l.prerequisites);
      assert layers == front + [last];
    }
  }

  // ---- the layers of a service ----

  /** Service defaults without a name are not laid over the others. */
  predicate Named(l: Layer) {
    Sets(l, Name)
  }

  /** The layers under a service: the built-in defaults, those of the configuration file, its own descriptor. */
  function Stack(defaults: Layer, file: Layer, orig: seq<Layer>): seq<Layer> {
    (if Named(defaults) then [defaults] else []) + (if Named(file) then [file] else []) + orig
  }

  /** Defaults whose name is empty are left out, those of the file as well as the built-in ones. */
  lemma StackInWords(defaults: Layer, file: Layer, orig: seq<Layer>)
    ensures var named := (l: Layer) => l.fields[Name] != Text("");
      Stack(defaults, file, orig) ==
        if named(defaults) && named(file) then [defaults, file] + orig
        else if named(defaults) then [defaults] + orig
        else if named(file) then [file] + orig
        else orig
  {
    assert [defaults] + [file] + orig == [defaults, file] + orig;
  }

  lemma PileSnoc(base: Layer, layers: seq<Layer>, l: Layer)
    ensures Pile(base, layers + [l]) == Merge(Pile(base, layers), l)
  {
    assert (layers + [l])[..|layers|] == layers;
  }

  /** The defaults laid over a cleared descriptor, as upk_ctrl_load_config does. */
  method LoadDefaults(defaults: Descriptor, file: Descriptor) returns (runtime: Descriptor)
    ensures fresh(runtime)
    ensures runtime.Content() == Pile(Cleared(), Stack(defaults.Content(), file.Content(), []))
  {
    hide Merge, Unset, Cleared, Pile;
    runtime := new Descriptor();
    ghost var layers := [];
    assert runtime.Content() == Pile(Cleared(), layers) by {
      EmptyPile(Cleared());
    }
    if defaults.fields[Name] != Unset(Name) {
      runtime.OverlayValues(defaults);
      PileSnoc(Cleared(), layers, defaults.Content());
      layers := layers + [defaults.Content()];
    }
    if file.fields[Name] != Unset(Name) {
      runtime.OverlayValues(file);
      PileSnoc(Cleared(), layers, file.Content());
      layers := layers + [file.Content()];
    }
    assert layers == Stack(defaults.Content(), file.Content(), []);
  }

  lemma EmptyPile(base: Layer)
    ensures Pile(base, []) == base
  {
  }

  lemma PileDelay(base: Layer, layers: seq<Layer>)
    ensures Pile(base, layers).startupDelay == base.startupDelay
  {
  }

  /** The defaults under the descriptor of the service, if there is one, as upk_finalize_svc_desc does. */
  method Finalize(defaults: Descriptor, file: Descriptor, orig: Descriptor?) returns (dest: Descriptor)
    ensures fresh(dest)
    ensures dest.Content() ==
            Pile(Cleared(), Stack(defaults.Content(), file.Content(), if orig == null then [] else [orig.Content()]))
  {
    hide Merge, Unset, Pile, Named;
    ghost var under := Stack(defaults.Content(), file.Content(), []);
    var runtime := LoadDefaults(defaults, file);
    PileDelay(Cleared(), under);
    ClearedIsIdentity(runtime.Content());
    dest := new Descriptor();
    dest.OverlayValues(runtime);
    if orig != null {
      dest.OverlayValues(orig);
      PileSnoc(Cleared(), under, orig.Content());
      assert under + [orig.Content()] == Stack(defaults.Content(), file.Content(), [orig.Content()]);
    }
  }
}
