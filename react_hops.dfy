/**
 * The per-hop signatures of ReAct: hop `i` sees the original inputs and the
 * thought, action and observation of every earlier hop, and produces its
 * own thought and action.
 */
module ReactHops {
  import opened Wrappers
  import opened Text
  import opened Dicts
  import opened Signatures
  import opened ReactTools

  const THOUGHT_DESC: string := "volgende stappen op basis van de laatste observatie"
  const OBSERVATION_DESC: string := "observaties gebaseerd op actie"

  function ThoughtKey(j: nat): string { "Thought_" + NatToString(j) }
  function ActionKey(j: nat): string { "Action_" + NatToString(j) }
  function ObservationKey(j: nat): string { "Observation_" + NatToString(j) }

  /** The names of the per-hop fields: kind 0 is the thought, 1 the action,
      2 the observation. */
  function SlotKey(h: nat, kind: nat): string
    requires kind < 3
  {
    if kind == 0 then ThoughtKey(h) else if kind == 1 then ActionKey(h) else ObservationKey(h)
  }

  /** Two per-hop field names agree only for the same hop and kind. */
  lemma SlotKeyInjective(h1: nat, k1: nat, h2: nat, k2: nat)
    requires k1 < 3 && k2 < 3 && SlotKey(h1, k1) == SlotKey(h2, k2)
    ensures h1 == h2 && k1 == k2
  {
    var s := SlotKey(h1, k1);
    assert s[0] == (if k1 == 0 then 'T' else if k1 == 1 then 'A' else 'O');
    assert s[0] == (if k2 == 0 then 'T' else if k2 == 1 then 'A' else 'O');
    if k1 == 0 {
      CancelPrefix("Thought_", NatToString(h1), NatToString(h2));
    } else if k1 == 1 {
      CancelPrefix("Action_", NatToString(h1), NatToString(h2));
    } else {
      CancelPrefix("Observation_", NatToString(h1), NatToString(h2));
    }
    NatToStringInjective(h1, h2);
  }

  // ---------------------------------------------------------------------
  // The hop signatures

  function SlotInfo(h: nat, kind: nat, iters: nat, actionDesc: string): FieldInfo
    requires kind < 3
  {
    var role := if h == iters then Output else Input;
    if kind == 0 then FieldInfo(role, "Thought " + NatToString(h) + ":", THOUGHT_DESC, Default)
    else if kind == 1 then FieldInfo(role, "Action " + NatToString(h) + ":", actionDesc, Default)
    else FieldInfo(role, "Observatie " + NatToString(h) + ":", OBSERVATION_DESC, PassagesToText)
  }

  function SlotItem(h: nat, kind: nat, iters: nat, actionDesc: string): (string, FieldInfo)
    requires kind < 3
  {
    (SlotKey(h, kind), SlotInfo(h, kind, iters, actionDesc))
  }

  /** The fields hop `j` adds: its thought and action, and its observation when it is not the last. */
  function HopSlots(j: nat, iters: nat, actionDesc: string): seq<(string, FieldInfo)> {
    [SlotItem(j, 0, iters, actionDesc), SlotItem(j, 1, iters, actionDesc)]
    + (if j < iters then [SlotItem(j, 2, iters, actionDesc)] else [])
  }

  function SlotsUpTo(j: nat, iters: nat, actionDesc: string): seq<(string, FieldInfo)> {
    if j == 0 then [] else SlotsUpTo(j - 1, iters, actionDesc) + HopSlots(j, iters, actionDesc)
  }


  /** Writing one hop's fields is two or three `Put`s. */
  lemma PutAllHop(d: Fields, j: nat, iters: nat, ad: string)
    ensures var d2 := Put(Put(d, SlotKey(j, 0), SlotInfo(j, 0, iters, ad)), SlotKey(j, 1), SlotInfo(j, 1, iters, ad));
      PutAll(d, HopSlots(j, iters, ad)) == if j < iters then Put(d2, SlotKey(j, 2), SlotInfo(j, 2, iters, ad)) else d2
  {
    var h := HopSlots(j, iters, ad);
    var h1 := h[..1];
    var h2 := h[..2];
    assert PutAll(d, h1) == Put(d, h[0].0, h[0].1) by {
      assert h1[..0] == [];
    }
    assert PutAll(d, h2) == Put(PutAll(d, h1), h[1].0, h[1].1) by {
      assert h2[..1] == h1;
    }
    if j < iters {
      assert h[..2] == h2;
    } else {
      assert h == h2;
    }
  }

  /** Hop `j`'s writes, one `Put` per field. */
  function WriteHop(d: Fields, j: nat, iters: nat, ad: string): (r: Fields)
    ensures Valid(d) ==> Valid(r)
  {
    var d2 := Put(Put(d, SlotKey(j, 0), SlotInfo(j, 0, iters, ad)), SlotKey(j, 1), SlotInfo(j, 1, iters, ad));
    if j < iters then Put(d2, SlotKey(j, 2), SlotInfo(j, 2, iters, ad)) else d2
  }

  /** The three per-hop fields, spelled out as `_generate_signature` writes them. */
  lemma SlotsSpelledOut(j: nat, iters: nat, ad: string)
    ensures var role := if j == iters then Output else Input;
      && SlotKey(j, 0) == ThoughtKey(j)
      && SlotInfo(j, 0, iters, ad) == FieldInfo(role, "Thought " + NatToString(j) + ":", THOUGHT_DESC, Default)
      && SlotKey(j, 1) == ActionKey(j)
      && SlotInfo(j, 1, iters, ad) == FieldInfo(role, "Action " + NatToString(j) + ":", ad, Default)
      && SlotKey(j, 2) == ObservationKey(j)
      && SlotInfo(j, 2, iters, ad) == FieldInfo(role, "Observatie " + NatToString(j) + ":", OBSERVATION_DESC, PassagesToText)
  {
  }

  /** The writes of hops 1..j, in order. */
  function WriteHops(d: Fields, j: nat, iters: nat, ad: string): (r: Fields)
    ensures Valid(d) ==> Valid(r)
  {
    if j == 0 then d else WriteHop(WriteHops(d, j - 1, iters, ad), j, iters, ad)
  }

  /** The fields of the hop-`iters` signature: the original inputs, then the
      writes of hops 1..iters. */
  function HopFields(inputs: seq<(string, FieldInfo)>, iters: nat, actionDesc: string): (r: Fields)
    ensures Valid(r)
  {
    WriteHops(FromItems(inputs), iters, iters, actionDesc)
  }

  /** Writing hop after hop is writing the per-hop field list at once. */
  lemma {:induction false} WriteHopsIsPutAll(d: Fields, j: nat, iters: nat, ad: string)
    ensures WriteHops(d, j, iters, ad) == PutAll(d, SlotsUpTo(j, iters, ad))
  {
    if j == 0 {
      assert SlotsUpTo(0, iters, ad) == [];
    } else {
      WriteHopsIsPutAll(d, j - 1, iters, ad);
      PutAllHop(WriteHops(d, j - 1, iters, ad), j, iters, ad);
      PutAllConcat(d, SlotsUpTo(j - 1, iters, ad), HopSlots(j, iters, ad));
    }
  }

  /** The first loop of `_generate_signature`: the original inputs written one by
      one into an empty dict. */
  method CopyInputs(inputs: seq<(string, FieldInfo)>) returns (fields: Fields)
    ensures fields == FromItems(inputs)
  {
    fields := Empty();
    for i := 0 to |inputs|
      invariant fields == PutAll(Empty(), inputs[..i])
    {
      fields := Put(fields, inputs[i].0, inputs[i].1);
      assert fields == PutAll(Empty(), inputs[..i + 1]) by {
        assert inputs[..i + 1][..i] == inputs[..i];
      }
    }
    assert inputs[..|inputs|] == inputs;
  }

  /** `_generate_signature(iters)`: copies the original inputs into a fresh dict,
      then for each hop j = 1..iters writes Thought_j, Action_j and, before
      the last hop, Observation_j. */
  method GenerateSignature(inputs: seq<(string, FieldInfo)>, reg: Registry, iters: nat) returns (fields: Fields)
    requires Valid(reg)
    ensures fields == HopFields(inputs, iters, ActionDesc(Catalog(reg)))
  {
    fields := CopyInputs(inputs);
    ghost var base := fields;
    ghost var ad := ActionDesc(Catalog(reg));
    for j := 1 to iters + 1
      invariant fields == WriteHops(base, j - 1, iters, ad)
    {
      ghost var prev := fields;
      SlotsSpelledOut(j, iters, ad);
      var role := if j == iters then Output else Input;
      fields := Put(fields, ThoughtKey(j), FieldInfo(role, "Thought " + NatToString(j) + ":", THOUGHT_DESC, Default));
      assert fields == Put(prev, SlotKey(j, 0), SlotInfo(j, 0, iters, ad));
      var toolList := Catalog(reg);
      fields := Put(fields, ActionKey(j), FieldInfo(role, "Action " + NatToString(j) + ":", ActionDesc(toolList), Default));
      ghost var d2 := fields;
      assert d2 == Put(Put(prev, SlotKey(j, 0), SlotInfo(j, 0, iters, ad)), SlotKey(j, 1), SlotInfo(j, 1, iters, ad));
      if j < iters {
        fields := Put(fields, ObservationKey(j),
          FieldInfo(role, "Observatie " + NatToString(j) + ":", OBSERVATION_DESC, PassagesToText));
        assert fields == Put(d2, SlotKey(j, 2), SlotInfo(j, 2, iters, ad));
      }
      assert fields == WriteHop(prev, j, iters, ad);
    }
  }

  /** `[f(1), ..., f(n)]`. */
  function Tabulate<T>(n: nat, f: nat -> T): (r: seq<T>)
    ensures |r| == n
  {
    if n == 0 then [] else Tabulate(n - 1, f) + [f(n)]
  }

  lemma {:induction false} TabulateAt<T>(n: nat, f: nat -> T, k: nat)
    requires k < n
    ensures Tabulate(n, f)[k] == f(k + 1)
  {
    if k < n - 1 {
      TabulateAt(n - 1, f, k);
    }
  }

  /** The signatures of hops 1..n, all with the same instructions. */
  function HopSignatureList(inputs: seq<(string, FieldInfo)>, ad: string, instr: string, n: nat): (hs: seq<Signature>)
    ensures |hs| == n
  {
    Tabulate(n, j => Signature(HopFields(inputs, j, ad), Some(instr)))
  }

  /** Index `k` of the list is the signature of hop `k + 1`. */
  lemma HopSignatureListAt(inputs: seq<(string, FieldInfo)>, ad: string, instr: string, n: nat, k: nat)
    requires k < n
    ensures HopSignatureList(inputs, ad, instr, n)[k] == Signature(HopFields(inputs, k + 1, ad), Some(instr))
  {
    TabulateAt(n, j => Signature(HopFields(inputs, j, ad), Some(instr)), k);
  }

  /** `[Signature(_generate_signature(i), instr) for i in range(1, n + 1)]`. */
  method HopSignatures(inputs: seq<(string, FieldInfo)>, reg: Registry, instr: string, n: nat) returns (hs: seq<Signature>)
    requires Valid(reg)
    ensures hs == HopSignatureList(inputs, ActionDesc(Catalog(reg)), instr, n)
  {
    ghost var ad := ActionDesc(Catalog(reg));
    hs := [];
    for i := 1 to n + 1
      invariant hs == HopSignatureList(inputs, ad, instr, i - 1)
    {
      var fields := GenerateSignature(inputs, reg, i);
      hs := hs + [Signature(fields, Some(instr))];
    }
  }

  /** Position `k` of the per-hop fields holds kind `k % 3` of hop `k / 3 + 1`:
      Thought_1, Action_1, Observation_1, Thought_2, ... The hop-`iters` list
      stops after Action_iters, so it has 3 * iters - 1 entries. */
  lemma {:induction false} SlotsLayout(j: nat, iters: nat, ad: string)
    requires j <= iters
    ensures |SlotsUpTo(j, iters, ad)| == if j == iters && j > 0 then 3 * j - 1 else 3 * j
    ensures forall k :: 0 <= k < |SlotsUpTo(j, iters, ad)| ==> SlotsUpTo(j, iters, ad)[k] == SlotItem(k / 3 + 1, k % 3, iters, ad)
  {
    if j > 0 {
      SlotsLayout(j - 1, iters, ad);
      var prev := SlotsUpTo(j - 1, iters, ad);
      var s := SlotsUpTo(j, iters, ad);
      assert |prev| == 3 * (j - 1);
      forall k | 0 <= k < |s| ensures s[k] == SlotItem(k / 3 + 1, k % 3, iters, ad) {
        if k >= |prev| {
          assert k / 3 + 1 == j;
          assert s[k] == HopSlots(j, iters, ad)[k - |prev|];
        }
      }
    }
  }

  /** No per-hop field name occurs twice. */
  lemma SlotNamesDistinct(iters: nat, ad: string)
    ensures Distinct(Names(SlotsUpTo(iters, iters, ad)))
  {
    SlotsLayout(iters, iters, ad);
    var s := SlotsUpTo(iters, iters, ad);
    forall a, b | 0 <= a < b < |s| ensures Names(s)[a] != Names(s)[b] {
      if Names(s)[a] == Names(s)[b] {
        SlotKeyInjective(a / 3 + 1, a % 3, b / 3 + 1, b % 3);
      }
    }
  }

  /** No original input is named like a per-hop field of the first `iters` hops. */
  ghost predicate NoClash(inputs: seq<(string, FieldInfo)>, iters: nat) {
    forall h: nat, kind: nat :: 1 <= h <= iters && kind < 3 ==> SlotKey(h, kind) !in Names(inputs)
  }

  /** When the names do not clash, the hop-`iters` signature is the original
      inputs in their order followed by Thought_1, Action_1, Observation_1,
      ..., Thought_iters, Action_iters, each with its prefix, description
      and role. */
  lemma HopFieldsLayout(inputs: seq<(string, FieldInfo)>, iters: nat, ad: string)
    requires Distinct(Names(inputs)) && NoClash(inputs, iters)
    ensures Items(HopFields(inputs, iters, ad)) == inputs + SlotsUpTo(iters, iters, ad)
  {
    WriteHopsIsPutAll(FromItems(inputs), iters, iters, ad);
    SlotNamesDistinct(iters, ad);
    SlotsAvoidInputs(inputs, iters, ad);
    FromItemsItems(inputs);
    LayoutOf(FromItems(inputs), inputs, SlotsUpTo(iters, iters, ad));
  }

  /** The per-hop fields are not among the original inputs. */
  lemma SlotsAvoidInputs(inputs: seq<(string, FieldInfo)>, iters: nat, ad: string)
    requires NoClash(inputs, iters)
    ensures var slots := SlotsUpTo(iters, iters, ad);
      forall i :: 0 <= i < |slots| ==> slots[i].0 !in FromItems(inputs).vals
  {
    var slots := SlotsUpTo(iters, iters, ad);
    SlotsLayout(iters, iters, ad);
    forall i | 0 <= i < |slots| ensures slots[i].0 !in FromItems(inputs).vals {
      assert slots[i].0 == SlotKey(i / 3 + 1, i % 3);
    }
  }

  /** Every field hop `j` adds is an output exactly when `j` is the last hop. */
  lemma HopSlotsRole(j: nat, iters: nat, ad: string)
    ensures forall i :: 0 <= i < |HopSlots(j, iters, ad)| ==>
      HopSlots(j, iters, ad)[i].1.role == if j == iters then Output else Input
  {
  }

  /** A hop before the last adds no output. */
  lemma EarlyHopNoOutput(j: nat, iters: nat, ad: string)
    requires j < iters
    ensures OfRole(HopSlots(j, iters, ad), Output) == []
  {
    HopSlotsRole(j, iters, ad);
    OfRoleNone(HopSlots(j, iters, ad), Output);
  }

  /** Before hop `j` reaches `iters`, the per-hop fields are all inputs. */
  lemma {:induction false} EarlySlotsAreInputs(j: nat, iters: nat, ad: string)
    requires j < iters
    ensures OfRole(SlotsUpTo(j, iters, ad), Output) == []
  {
    if j > 0 {
      EarlySlotsAreInputs(j - 1, iters, ad);
      EarlyHopNoOutput(j, iters, ad);
      OfRoleAppendNone(SlotsUpTo(j - 1, iters, ad), HopSlots(j, iters, ad), Output);
    }
  }

  /** The outputs of the hop-`iters` signature are the fields hop `iters` adds. */
  lemma {:induction false} HopOutputsAreLastHop(inputs: seq<(string, FieldInfo)>, iters: nat, ad: string)
    requires Distinct(Names(inputs)) && NoClash(inputs, iters) && iters >= 1
    requires forall i :: 0 <= i < |inputs| ==> inputs[i].1.role == Input
    ensures OfRole(Items(HopFields(inputs, iters, ad)), Output) == HopSlots(iters, iters, ad)
  {
    var prev := SlotsUpTo(iters - 1, iters, ad);
    var h := HopSlots(iters, iters, ad);
    assert Items(HopFields(inputs, iters, ad)) == inputs + (prev + h) by {
      HopFieldsLayout(inputs, iters, ad);
    }
    assert OfRole(inputs, Output) == [] by {
      OfRoleNone(inputs, Output);
    }
    assert OfRole(prev, Output) == [] by {
      EarlySlotsAreInputs(iters - 1, iters, ad);
    }
    LastHopOutputs(iters, ad);
    assert OfRole(prev + h, Output) == h by {
      OfRoleAppend(prev, h, Output);
    }
    OfRoleAppend(inputs, prev + h, Output);
  }

  /** Every hop signature has exactly two outputs, Thought_iters and
      Action_iters, after all the inputs. */
  lemma {:induction false} HopSignatureOutputs(inputs: seq<(string, FieldInfo)>, iters: nat, ad: string)
    requires Distinct(Names(inputs)) && NoClash(inputs, iters) && iters >= 1
    requires forall i :: 0 <= i < |inputs| ==> inputs[i].1.role == Input
    ensures Names(OfRole(Items(HopFields(inputs, iters, ad)), Output)) == [ThoughtKey(iters), ActionKey(iters)]
  {
    HopOutputsAreLastHop(inputs, iters, ad);
    LastHopNames(iters, ad);
  }

  /** Both fields the last hop adds are outputs. */
  lemma LastHopOutputs(iters: nat, ad: string)
    requires iters >= 1
    ensures OfRole(HopSlots(iters, iters, ad), Output) == HopSlots(iters, iters, ad)
  {
    var h := HopSlots(iters, iters, ad);
    assert h == [SlotItem(iters, 0, iters, ad), SlotItem(iters, 1, iters, ad)];
    OfRoleAll(h, Output);
  }

  /** The last hop adds its thought and its action, in that order. */
  lemma LastHopNames(iters: nat, ad: string)
    requires iters >= 1
    ensures Names(HopSlots(iters, iters, ad)) == [ThoughtKey(iters), ActionKey(iters)]
  {
    var h := HopSlots(iters, iters, ad);
    assert h == [SlotItem(iters, 0, iters, ad), SlotItem(iters, 1, iters, ad)];
  }

  /** The hop-`iters` signature has no Observation_iters field unless an original
      input is so named: the last hop's observation is never asked for. */
  lemma LastObservationAbsent(inputs: seq<(string, FieldInfo)>, iters: nat, ad: string)
    requires ObservationKey(iters) !in Names(inputs)
    ensures ObservationKey(iters) !in HopFields(inputs, iters, ad).vals
  {
    WriteHopsIsPutAll(FromItems(inputs), iters, iters, ad);
    LastObservationNotWritten(iters, iters, ad);
  }

  /** No hop up to `iters` writes Observation_iters. */
  lemma {:induction false} LastObservationNotWritten(j: nat, iters: nat, ad: string)
    requires j <= iters
    ensures ObservationKey(iters) !in Names(SlotsUpTo(j, iters, ad))
  {
    if j > 0 {
      LastObservationNotWritten(j - 1, iters, ad);
      HopAvoidsLastObservation(j, iters, ad);
      NotInNamesAppend(SlotsUpTo(j - 1, iters, ad), HopSlots(j, iters, ad), ObservationKey(iters));
    }
  }

  /** Hop `j` up to `iters` does not write Observation_iters. */
  lemma HopAvoidsLastObservation(j: nat, iters: nat, ad: string)
    requires 0 < j <= iters
    ensures forall i :: 0 <= i < |HopSlots(j, iters, ad)| ==> HopSlots(j, iters, ad)[i].0 != ObservationKey(iters)
  {
    forall i | 0 <= i < |HopSlots(j, iters, ad)| ensures HopSlots(j, iters, ad)[i].0 != ObservationKey(iters) {
      assert HopSlots(j, iters, ad)[i].0 == SlotKey(j, i);
      if SlotKey(j, i) == ObservationKey(iters) {
        SlotKeyInjective(j, i, iters, 2);
      }
    }
  }
}
