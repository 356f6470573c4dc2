/**
 What a write does, step by step. The writers of src/encoding check room before
 each primitive and remember a failure; the characters of a string are checked
 without remembering, and a value that has no encoding is refused without
 touching the writer. So a value is a sequence of steps, and a writer lays them
 down until one fails.
 */
module Steps {
  import opened Types
  import opened Wire
  import opened Codec

  /** A writer's state: its sticky status, what it has written, and how much its buffer holds. */
  datatype Pen = Pen(status: Status, written: seq<byte>, capacity: nat) {
    ghost predicate Standing() {
      status == Good && |written| <= capacity
    }
  }

  datatype Step =
    | Put(bytes: seq<byte>)      // a primitive: all of it or a failure that sticks
    | Payload(bytes: seq<byte>)  // characters: all of them or a failure that does not stick
    | Refuse(status: Status)     // no encoding: returned, and nothing else happens

  function Do(p: Pen, step: Step): (r: (Pen, Status)) {
    match step
    case Put(b) =>
      if p.status != Good then (p, p.status)
      else if |p.written| + |b| <= p.capacity then (p.(written := p.written + b), Good)
      else (p.(status := BadEncodingError), BadEncodingError)
    case Payload(b) =>
      if |p.written| + |b| <= p.capacity then (p.(written := p.written + b), Good) else (p, BadEncodingError)
    case Refuse(s) => (p, s)
  }

  /** The steps in order, up to the first that fails. */
  function Lay(p: Pen, steps: seq<Step>): (r: (Pen, Status))
    decreases |steps|
  {
    if steps == [] then (p, Good)
    else
      var d := Do(p, steps[0]);
      if d.1 == Good then Lay(d.0, steps[1..]) else d
  }

  ghost predicate Laid(p: Pen, q: Pen, s: Status, steps: seq<Step>) {
    Lay(p, steps) == (q, s)
  }

  lemma LayOne(p: Pen, step: Step)
    ensures Lay(p, [step]) == Do(p, step)
  {
    assert [step][1..] == [];
  }

  /** Laying a, and b only if that went well, is laying both. */
  lemma {:induction false} LayConcat(p: Pen, a: seq<Step>, b: seq<Step>)
    ensures Lay(p, a + b) == if Lay(p, a).1 == Good then Lay(Lay(p, a).0, b) else Lay(p, a)
    decreases |a|
  {
    hide Do;
    if a == [] {
      assert a + b == b;
    } else {
      assert (a + b)[0] == a[0] && (a + b)[1..] == a[1..] + b;
      LayConcat(Do(p, a[0]).0, a[1..], b);
    }
  }

  lemma LaidThen(p: Pen, q: Pen, r: Pen, a: seq<Step>, t: Status, b: seq<Step>, s: Status)
    requires Laid(p, q, t, a)
    requires if t == Good then Laid(q, r, s, b) else r == q && s == t
    ensures Laid(p, r, s, a + b)
  {
    hide Lay;
    LayConcat(p, a, b);
  }

  lemma LaidNothing(p: Pen)
    ensures Laid(p, p, Good, [])
  {
  }

  // ----- What the steps come to

  /** No step is refused. */
  predicate Clean(steps: seq<Step>) {
    forall i :: 0 <= i < |steps| ==> !steps[i].Refuse?
  }

  /** The bytes of the steps before the first refusal, all of them if there is none. */
  function Lead(steps: seq<Step>): (r: seq<byte>) {
    if steps == [] || steps[0].Refuse? then [] else steps[0].bytes + Lead(steps[1..])
  }

  /** The status of the first refusal, Good if there is none. */
  function Reason(steps: seq<Step>): (r: Status) {
    if steps == [] then Good else if steps[0].Refuse? then steps[0].status else Reason(steps[1..])
  }

  /** No refusal reports success. */
  predicate Honest(steps: seq<Step>) {
    forall i :: 0 <= i < |steps| ==> steps[i] != Refuse(Good)
  }

  /**
   The status in full: room for everything before the first refusal is missing,
   or the refusal gives its reason, or all went well.
   */
  lemma {:induction false} LayStatus(p: Pen, steps: seq<Step>)
    requires p.Standing() && Honest(steps)
    ensures Lay(p, steps).1 == if |p.written| + |Lead(steps)| > p.capacity then BadEncodingError else Reason(steps)
    decreases |steps|
  {
    assert forall i :: 0 <= i < |steps| - 1 ==> steps[1..][i] == steps[i + 1];
    if steps != [] && !steps[0].Refuse? && Do(p, steps[0]).1 == Good {
      LayStatus(Do(p, steps[0]).0, steps[1..]);
    }
  }

  /** What a successful write leaves is what was there and the bytes of the steps. */
  lemma {:induction false} LayWritten(p: Pen, steps: seq<Step>)
    requires p.Standing() && Honest(steps)
    ensures Lay(p, steps).1 == Good ==> Lay(p, steps).0 == p.(written := p.written + Lead(steps))
    ensures p.written <= Lay(p, steps).0.written && Lay(p, steps).0.capacity == p.capacity
    ensures |Lay(p, steps).0.written| <= p.capacity
    decreases |steps|
  {
    if steps == [] {
      assert p.written + [] == p.written;
    } else if !steps[0].Refuse? && Do(p, steps[0]).1 == Good {
      assert forall i :: 0 <= i < |steps| - 1 ==> steps[1..][i] == steps[i + 1];
      LayWritten(Do(p, steps[0]).0, steps[1..]);
      assert (p.written + steps[0].bytes) + Lead(steps[1..]) == p.written + (steps[0].bytes + Lead(steps[1..]));
    }
  }

  lemma {:induction false} CleanReason(steps: seq<Step>)
    requires Honest(steps)
    ensures Reason(steps) == Good <==> Clean(steps)
  {
    if steps != [] && !steps[0].Refuse? {
      assert forall i :: 0 <= i < |steps| - 1 ==> steps[1..][i] == steps[i + 1];
      CleanReason(steps[1..]);
    }
  }

  /** A write without refusals: good exactly if everything fits. */
  lemma LayClean(p: Pen, steps: seq<Step>)
    requires p.Standing() && Clean(steps)
    ensures Lay(p, steps).1 == if |p.written| + |Lead(steps)| <= p.capacity then Good else BadEncodingError
    ensures Lay(p, steps).1 == Good ==> Lay(p, steps).0 == p.(written := p.written + Lead(steps))
  {
    hide Lay, Lead, Reason;
    CleanReason(steps);
    LayStatus(p, steps);
    LayWritten(p, steps);
  }

  lemma CleanConcat(a: seq<Step>, b: seq<Step>)
    ensures Clean(a + b) <==> Clean(a) && Clean(b)
    ensures Honest(a + b) <==> Honest(a) && Honest(b)
  {
    assert forall i :: 0 <= i < |a| ==> (a + b)[i] == a[i];
    assert forall i :: 0 <= i < |b| ==> (a + b)[|a| + i] == b[i];
  }

  lemma CleanFirst(a: seq<Step>)
    requires a != []
    ensures Clean(a) <==> !a[0].Refuse? && Clean(a[1..])
  {
    assert [a[0]] + a[1..] == a;
    CleanConcat([a[0]], a[1..]);
    assert Clean([a[0]]) <==> !([a[0]][0]).Refuse?;
  }

  lemma {:induction false} LeadConcat(a: seq<Step>, b: seq<Step>)
    ensures Lead(a + b) == Lead(a) + if Clean(a) then Lead(b) else []
    ensures Reason(a + b) == if Clean(a) then Reason(b) else Reason(a)
  {
    hide Clean;
    if a == [] {
      assert a + b == b && Clean(a) by { CleanNothing(); }
    } else {
      CleanFirst(a);
      assert (a + b)[0] == a[0] && (a + b)[1..] == a[1..] + b;
      if !a[0].Refuse? {
        LeadConcat(a[1..], b);
      }
    }
  }

  lemma CleanNothing()
    ensures Clean([])
  {
  }

  // ----- What failures that do not stick leave behind

  /**
   The bytes that steps leave in a writer with this much room, or None if a
   failure sticks: a primitive that does not fit.
   */
  function Residue(steps: seq<Step>, room: nat): (r: Option<seq<byte>>)
    ensures r.Some? ==> |r.value| <= room
  {
    if steps == [] then Some([])
    else match steps[0]
      case Put(b) => if |b| > room then None else Joined(b, Residue(steps[1..], room - |b|))
      case Payload(b) => if |b| > room then Some([]) else Joined(b, Residue(steps[1..], room - |b|))
      case Refuse(_) => Some([])
  }

  function Joined(a: seq<byte>, o: Option<seq<byte>>): (r: Option<seq<byte>>) {
    if o.Some? then Some(a + o.value) else None
  }

  lemma {:induction false} LayResidue(p: Pen, steps: seq<Step>)
    requires p.Standing() && Honest(steps)
    ensures match Residue(steps, p.capacity - |p.written|)
      case None => Lay(p, steps).0.status == Lay(p, steps).1 == BadEncodingError
      case Some(b) => Lay(p, steps).0 == p.(written := p.written + b)
    decreases |steps|
  {
    if steps == [] {
      assert p.written + [] == p.written;
    } else if Do(p, steps[0]).1 == Good {
      assert forall i :: 0 <= i < |steps| - 1 ==> steps[1..][i] == steps[i + 1];
      var q, b := Do(p, steps[0]).0, steps[0].bytes;
      LayResidue(q, steps[1..]);
      var rest := Residue(steps[1..], q.capacity - |q.written|);
      if rest.Some? { assert (p.written + b) + rest.value == p.written + (b + rest.value); }
    } else {
      assert p.written + [] == p.written;
    }
  }

  /** The residue is all of the bytes exactly if nothing is refused and everything fits. */
  lemma {:induction false} ResidueWhole(steps: seq<Step>, room: nat)
    requires Clean(steps)
    ensures |Lead(steps)| <= room ==> Residue(steps, room) == Some(Lead(steps))
    ensures |Lead(steps)| > room && Residue(steps, room).Some? ==> |Residue(steps, room).value| < |Lead(steps)|
  {
    if steps != [] {
      assert forall i :: 0 <= i < |steps| - 1 ==> steps[1..][i] == steps[i + 1];
      if |steps[0].bytes| <= room {
        ResidueWhole(steps[1..], room - |steps[0].bytes|);
      }
    }
  }

  // ----- The steps of each value

  function StringSteps(v: UaString): (r: seq<Step>) {
    match v
    case Null => [Put(EncI32(-1))]
    case Bytes(b) =>
      if |b| > MAX_STRING then [Refuse(BadEncodingLimitsExceeded)]
      else [Put(EncI32(|b|))] + if b == [] then [] else [Payload(b)]
  }

  function NodeIdSteps(n: NodeId): (r: seq<Step>) {
    match n
    case Numeric(ns, id) =>
      if ns == 0 && id <= 255 then [Put([0x00]), Put([id])]
      else if ns <= 255 && id <= 65535 then [Put([0x01]), Put([ns]), Put(LE(id, 2))]
      else [Put([0x02]), Put(LE(ns, 2)), Put(LE(id, 4))]
    case StringId(ns, name) => [Put([0x03]), Put(LE(ns, 2))] + StringSteps(name)
    case _ => [Refuse(BadEncodingError)]
  }

  function QualifiedNameSteps(ns: u16, name: UaString): (r: seq<Step>) {
    [Put(LE(ns, 2))] + StringSteps(name)
  }

  function TextSteps(s: UaString): (r: seq<Step>) {
    if s.Bytes? then StringSteps(s) else []
  }

  function LocalizedTextSteps(locale: UaString, text: UaString): (r: seq<Step>) {
    [Put([LocalizedTextMask(locale, text)])] + (TextSteps(locale) + TextSteps(text))
  }

  /** write_scalar_value, which has no case for Null. */
  function ScalarSteps(v: Variant): (r: seq<Step>) {
    match v
    case VNull => [Refuse(BadEncodingError)]
    case VBoolean(b) => [Put([if b then 1 else 0])]
    case VSByte(x) => [Put([ToUnsigned(x, TWO8)])]
    case VByte(x) => [Put([x])]
    case VInt16(x) => [Put(EncI16(x))]
    case VUInt16(x) => [Put(LE(x, 2))]
    case VInt32(x) => [Put(EncI32(x))]
    case VUInt32(x) => [Put(LE(x, 4))]
    case VInt64(x) => [Put(EncI64(x))]
    case VUInt64(x) => [Put(LE(x, 8))]
    case VFloat(x) => [Put(LE(x, 4))]
    case VDouble(x) => [Put(LE(x, 8))]
    case VString(s) => StringSteps(s)
    case VDateTime(x) => [Put(EncI64(x))]
    case VByteString(s) => StringSteps(s)
    case VNodeId(n) => NodeIdSteps(n)
    case VStatusCode(x) => [Put(LE(x, 4))]
    case VQualifiedName(ns, name) => QualifiedNameSteps(ns, name)
    case VLocalizedText(locale, text) => LocalizedTextSteps(locale, text)
    case VArray(_, _, _) => [Refuse(BadEncodingError)]
    case VUnsupported(_) => [Refuse(BadEncodingError)]
  }

  function ElementSteps(es: seq<Variant>): (r: seq<Step>) {
    if es == [] then [] else ElementSteps(es[..|es| - 1]) + ScalarSteps(es[|es| - 1])
  }

  function ArraySteps(kind: typeId, length: i32, elements: Option<seq<Variant>>): (r: seq<Step>) {
    if kind == 0 then []
    else
      var rest :=
        if NullArray(kind, length, elements) then []
        else if !SizedKind(kind) then [Refuse(BadEncodingError)]
        else ElementSteps(elements.value);
      [Put(EncI32(length))] + rest
  }

  function VariantSteps(v: Variant): (r: seq<Step>) {
    if v.VArray? then [Put([v.kind + 128])] + ArraySteps(v.kind, v.length, v.elements)
    else [Put([TypeId(v)])] + if v.VNull? then [] else ScalarSteps(v)
  }

  function ValueSteps(o: Option<Variant>): (r: seq<Step>) {
    if o.Some? then VariantSteps(o.value) else []
  }

  function TimeSteps(o: Option<i64>): (r: seq<Step>) {
    if o.Some? then [Put(EncI64(o.value))] else []
  }

  function StatusAndTimeSteps(d: DataValue): (r: seq<Step>) {
    (if d.status.Some? then [Put(LE(d.status.value, 4))] else []) + (TimeSteps(d.sourceTimestamp) + TimeSteps(d.serverTimestamp))
  }

  function DataValueSteps(d: DataValue): (r: seq<Step>) {
    [Put([DataValueMask(d)])] + (ValueSteps(d.value) + StatusAndTimeSteps(d))
  }

  // ----- The steps are the encoding, cut into pieces

  /** The steps write these bytes, or are refused, for one of the two reasons there are. */
  ghost predicate Spell(steps: seq<Step>, ok: bool, bytes: seq<byte>) {
    && (Clean(steps) <==> ok) && (ok ==> Lead(steps) == bytes)
    && forall i :: 0 <= i < |steps| && steps[i].Refuse? ==> steps[i].status == BadEncodingError || steps[i].status == BadEncodingLimitsExceeded
  }

  lemma SpellConcat(a: seq<Step>, b: seq<Step>, ok: bool, okay: bool, x: seq<byte>, y: seq<byte>)
    requires Spell(a, ok, x) && Spell(b, okay, y)
    ensures Spell(a + b, ok && okay, x + y)
  {
    hide Lead, Reason;
    LeadConcat(a, b);
    CleanConcat(a, b);
    var s := a + b;
    forall i | 0 <= i < |s| && s[i].Refuse? ensures s[i].status == BadEncodingError || s[i].status == BadEncodingLimitsExceeded {
      if i < |a| { assert s[i] == a[i]; } else { assert s[i] == b[i - |a|]; }
    }
  }

  lemma SpellHonest(steps: seq<Step>, ok: bool, bytes: seq<byte>)
    requires Spell(steps, ok, bytes)
    ensures Honest(steps)
  {
  }

  lemma SpellPut(b: seq<byte>)
    ensures Spell([Put(b)], true, b)
  {
    assert [Put(b)][1..] == [];
    assert Lead([Put(b)]) == b + Lead([]);
    assert b + [] == b;
  }

  lemma SpellPuts(a: seq<byte>, b: seq<byte>)
    ensures Spell([Put(a), Put(b)], true, a + b)
  {
    hide Spell;
    SpellPut(a);
    SpellPut(b);
    SpellConcat([Put(a)], [Put(b)], true, true, a, b);
    assert [Put(a)] + [Put(b)] == [Put(a), Put(b)];
  }

  lemma SpellRefuse(s: Status)
    requires s == BadEncodingError || s == BadEncodingLimitsExceeded
    ensures Spell([Refuse(s)], false, [])
  {
    assert [Refuse(s)][0].Refuse?;
  }

  lemma SpellNothing()
    ensures Spell([], true, [])
  {
  }

  lemma StringSpelt(v: UaString)
    ensures Spell(StringSteps(v), EncodableString(v), if EncodableString(v) then EncString(v) else [])
  {
    hide EncI32, Spell;
    match v
    case Null => SpellPut(EncI32(-1));
    case Bytes(b) =>
      if |b| > MAX_STRING {
        SpellRefuse(BadEncodingLimitsExceeded);
      } else {
        SpellPut(EncI32(|b|));
        SpellPayload(b);
        SpellConcat([Put(EncI32(|b|))], if b == [] then [] else [Payload(b)], true, true, EncI32(|b|), b);
      }
  }

  lemma SpellPayload(b: seq<byte>)
    ensures Spell(if b == [] then [] else [Payload(b)], true, b)
  {
    if b != [] {
      assert [Payload(b)][1..] == [];
      assert Lead([Payload(b)]) == b + Lead([]);
      assert b + [] == b;
    }
  }

  lemma NodeIdSpelt(n: NodeId)
    ensures Spell(NodeIdSteps(n), EncodableNodeId(n), if EncodableNodeId(n) then EncNodeId(n) else [])
  {
    hide LE, Spell, EncString, StringSteps;
    match n
    case Numeric(ns, id) =>
      if ns == 0 && id <= 255 {
        SpellPuts([0x00], [id]);
        assert [0x00] + [id] == [0x00, id];
      } else if ns <= 255 && id <= 65535 {
        SpellPuts([0x01], [ns]);
        SpellPut(LE(id, 2));
        assert [0x01] + [ns] == [0x01, ns];
        SpellConcat([Put([0x01]), Put([ns])], [Put(LE(id, 2))], true, true, [0x01, ns], LE(id, 2));
        assert [Put([0x01]), Put([ns])] + [Put(LE(id, 2))] == NodeIdSteps(n);
      } else {
        SpellPuts([0x02], LE(ns, 2));
        SpellPut(LE(id, 4));
        SpellConcat([Put([0x02]), Put(LE(ns, 2))], [Put(LE(id, 4))], true, true, [0x02] + LE(ns, 2), LE(id, 4));
        assert [Put([0x02]), Put(LE(ns, 2))] + [Put(LE(id, 4))] == NodeIdSteps(n);
      }
    case StringId(ns, name) =>
      SpellPuts([0x03], LE(ns, 2));
      StringSpelt(name);
      var ok := EncodableString(name);
      SpellConcat([Put([0x03]), Put(LE(ns, 2))], StringSteps(name), true, ok, [0x03] + LE(ns, 2), if ok then EncString(name) else []);
      RefusedBytes(NodeIdSteps(n), ok, [0x03] + LE(ns, 2) + if ok then EncString(name) else []);
    case _ => SpellRefuse(BadEncodingError);
  }

  lemma RefusedBytes(steps: seq<Step>, ok: bool, bytes: seq<byte>)
    requires Spell(steps, ok, bytes)
    ensures Spell(steps, ok, if ok then bytes else [])
  {
  }

  lemma QualifiedNameSpelt(ns: u16, name: UaString)
    ensures Spell(QualifiedNameSteps(ns, name), EncodableString(name), if EncodableString(name) then EncQualifiedName(ns, name) else [])
  {
    hide LE, Spell, EncString, StringSteps;
    SpellPut(LE(ns, 2));
    StringSpelt(name);
    var ok := EncodableString(name);
    var e := if ok then EncString(name) else [];
    SpellConcat([Put(LE(ns, 2))], StringSteps(name), true, ok, LE(ns, 2), e);
    RefusedBytes(QualifiedNameSteps(ns, name), ok, LE(ns, 2) + e);
  }

  lemma TextSpelt(s: UaString)
    ensures Spell(TextSteps(s), EncodableString(s), if EncodableString(s) then EncIfPresent(s) else [])
  {
    hide Spell, EncString, StringSteps;
    if s.Bytes? { StringSpelt(s); } else { SpellNothing(); }
  }

  lemma LocalizedTextSpelt(locale: UaString, text: UaString)
    ensures var ok := EncodableString(locale) && EncodableString(text);
      Spell(LocalizedTextSteps(locale, text), ok, if ok then EncLocalizedText(locale, text) else [])
  {
    hide Spell, TextSteps, EncIfPresent, LocalizedTextMask, EncodableString;
    var okl, okt := EncodableString(locale), EncodableString(text);
    var l, t := if okl then EncIfPresent(locale) else [], if okt then EncIfPresent(text) else [];
    var m := [LocalizedTextMask(locale, text)];
    SpellPut(m);
    TextSpelt(locale);
    TextSpelt(text);
    SpellConcat(TextSteps(locale), TextSteps(text), okl, okt, l, t);
    SpellConcat([Put(m)], TextSteps(locale) + TextSteps(text), true, okl && okt, m, l + t);
    RefusedBytes(LocalizedTextSteps(locale, text), okl && okt, m + (l + t));
    assert m + (l + t) == m + l + t;
  }

  lemma NumberSpelt(v: Variant)
    requires EncodableScalar(v) && !v.VNull? && !IsText(v)
    ensures Spell(ScalarSteps(v), true, EncScalar(v))
  {
    hide Spell, LE, EncI16, EncI32, EncI64;
    SpellPut(EncScalar(v));
  }

  lemma ScalarSpelt(v: Variant)
    ensures var ok := !v.VNull? && EncodableScalar(v);
      Spell(ScalarSteps(v), ok, if ok then EncScalar(v) else [])
  {
    hide Spell, EncString, EncNodeId, EncQualifiedName, EncLocalizedText, StringSteps, NodeIdSteps, QualifiedNameSteps, LocalizedTextSteps, LE, EncI16, EncI32, EncI64;
    match v
    case VString(s) => StringSpelt(s);
    case VByteString(s) => StringSpelt(s);
    case VNodeId(n) => NodeIdSpelt(n);
    case VQualifiedName(ns, name) => QualifiedNameSpelt(ns, name);
    case VLocalizedText(locale, text) => LocalizedTextSpelt(locale, text);
    case VNull => SpellRefuse(BadEncodingError);
    case VArray(_, _, _) => SpellRefuse(BadEncodingError);
    case VUnsupported(_) => SpellRefuse(BadEncodingError);
    case _ => NumberSpelt(v);
  }

  lemma {:induction false} EncElementsAppend(es: seq<Variant>, v: Variant)
    requires EncodableElements(es) && !v.VNull? && EncodableScalar(v)
    ensures EncodableElements(es + [v]) && EncElements(es + [v]) == EncElements(es) + EncScalar(v)
  {
    hide EncScalar, EncodableScalar;
    if es == [] {
      assert es + [v] == [v] && [v][1..] == [];
      assert EncElements([v]) == EncScalar(v) + EncElements([v][1..]);
      assert EncScalar(v) + [] == EncScalar(v);
    } else {
      assert (es + [v])[1..] == es[1..] + [v] && (es + [v])[0] == es[0];
      EncElementsAppend(es[1..], v);
      assert (EncScalar(es[0]) + EncElements(es[1..])) + EncScalar(v) == EncScalar(es[0]) + (EncElements(es[1..]) + EncScalar(v));
    }
  }

  lemma {:induction false} ElementsSpelt(es: seq<Variant>)
    ensures Spell(ElementSteps(es), EncodableElements(es), if EncodableElements(es) then EncElements(es) else [])
  {
    hide Spell, EncScalar, EncodableScalar, ScalarSteps;
    if es == [] {
      SpellNothing();
    } else {
      var n := |es| - 1;
      var a, v := es[..n], es[n];
      ElementsSpelt(a);
      ScalarSpelt(v);
      var okv := !v.VNull? && EncodableScalar(v);
      var x, y := if EncodableElements(a) then EncElements(a) else [], if okv then EncScalar(v) else [];
      SpellConcat(ElementSteps(a), ScalarSteps(v), EncodableElements(a), okv, x, y);
      RefusedBytes(ElementSteps(es), EncodableElements(a) && okv, x + y);
      assert a + [v] == es;
      if EncodableElements(a) && okv { EncElementsAppend(a, v); }
      assert EncodableElements(es) ==> EncodableElements(a) && okv;
    }
  }

  lemma ArraySpelt(kind: typeId, length: i32, elements: Option<seq<Variant>>)
    ensures var ok := NullArray(kind, length, elements) || (SizedKind(kind) && EncodableElements(elements.value));
      Spell(ArraySteps(kind, length, elements), ok, if ok then EncArray(kind, length, elements) else [])
  {
    hide Spell, EncI32, EncElements, ElementSteps, EncodableElements, SizedKind;
    var e := EncI32(length);
    SpellNothing();
    SpellPut(e);
    if kind != 0 {
      if NullArray(kind, length, elements) {
        SpellConcat([Put(e)], [], true, true, e, []);
      } else if !SizedKind(kind) {
        SpellRefuse(BadEncodingError);
        SpellConcat([Put(e)], [Refuse(BadEncodingError)], true, false, e, []);
        RefusedBytes(ArraySteps(kind, length, elements), false, e + []);
      } else {
        var es := elements.value;
        ElementsSpelt(es);
        var ok := EncodableElements(es);
        var x := if ok then EncElements(es) else [];
        SpellConcat([Put(e)], ElementSteps(es), true, ok, e, x);
        RefusedBytes(ArraySteps(kind, length, elements), ok, e + x);
      }
    }
  }

  lemma VariantSpelt(v: Variant)
    ensures Spell(VariantSteps(v), Encodable(v), if Encodable(v) then EncVariant(v) else [])
  {
    hide Spell, EncScalar, EncodableScalar, ScalarSteps, ArraySteps, EncArray, NullArray, SizedKind, EncodableElements;
    if v.VArray? {
      ArraySpelt(v.kind, v.length, v.elements);
      SpellPut([v.kind + 128]);
      var ok := Encodable(v);
      var x := if ok then EncArray(v.kind, v.length, v.elements) else [];
      SpellConcat([Put([v.kind + 128])], ArraySteps(v.kind, v.length, v.elements), true, ok, [v.kind + 128], x);
      RefusedBytes(VariantSteps(v), ok, [v.kind + 128] + x);
    } else {
      var t := [TypeId(v)];
      SpellPut(t);
      if v.VNull? {
        NullScalar();
        SpellNothing();
        SpellConcat([Put(t)], [], true, true, t, []);
      } else {
        ScalarSpelt(v);
        var ok := EncodableScalar(v);
        var x := if ok then EncScalar(v) else [];
        SpellConcat([Put(t)], ScalarSteps(v), true, ok, t, x);
        RefusedBytes(VariantSteps(v), ok, t + x);
      }
    }
  }

  lemma NullScalar()
    ensures EncodableScalar(VNull) && EncScalar(VNull) == []
  {
  }

  lemma StatusAndTimesSpelt(d: DataValue)
    ensures Spell(StatusAndTimeSteps(d), true, EncStatusAndTimes(d))
  {
    hide Spell, LE, EncI64;
    SpellNothing();
    var s := d.status;
    if s.Some? { SpellPut(LE(s.value, 4)); }
    var a, b := d.sourceTimestamp, d.serverTimestamp;
    if a.Some? { SpellPut(EncI64(a.value)); }
    if b.Some? { SpellPut(EncI64(b.value)); }
    SpellConcat(TimeSteps(a), TimeSteps(b), true, true, EncOptI64(a), EncOptI64(b));
    SpellConcat(if s.Some? then [Put(LE(s.value, 4))] else [], TimeSteps(a) + TimeSteps(b), true, true, EncOptU32(s), EncTimes(d));
  }

  lemma DataValueSpelt(d: DataValue)
    ensures Spell(DataValueSteps(d), EncodableDataValue(d), if EncodableDataValue(d) then EncDataValue(d) else [])
  {
    hide Spell, EncVariant, Encodable, VariantSteps, StatusAndTimeSteps, EncStatusAndTimes;
    var ok := EncodableDataValue(d);
    var x := if ok then EncOptVariant(d.value) else [];
    if d.value.Some? { VariantSpelt(d.value.value); } else { SpellNothing(); }
    StatusAndTimesSpelt(d);
    SpellConcat(ValueSteps(d.value), StatusAndTimeSteps(d), ok, true, x, EncStatusAndTimes(d));
    var m := [DataValueMask(d)];
    SpellPut(m);
    SpellConcat([Put(m)], ValueSteps(d.value) + StatusAndTimeSteps(d), true, ok, m, x + EncStatusAndTimes(d));
    RefusedBytes(DataValueSteps(d), ok, m + (x + EncStatusAndTimes(d)));
  }
}
