// Two schemas of one message: what a reader's structure holds after it has read what a writer,
// whose schema may know more fields or fewer, wrote.

module PbSchemas {
  import opened Keys
  import opened Coding
  import opened PbMessages
  import opened PbDecoder

  // ----- schemas -----

  /** Descriptors as they are generated: tags distinct, not zero and of at most 29 bits. */
  ghost predicate TagsOk(fields: seq<Field>)
    decreases fields
  {
    && (forall i :: 0 <= i < |fields| ==> 0 < fields[i].tag < TAG_LIMIT)
    && (forall i, j :: 0 <= i < j < |fields| ==> fields[i].tag != fields[j].tag)
    && (forall i :: 0 <= i < |fields| && fields[i].ltype.SubmessageType? ==> TagsOk(fields[i].sub))
  }

  /** A number of required fields that the check at the end of decoding can handle. */
  ghost predicate CountsOk(m: Machine, fields: seq<Field>)
    decreases fields
  {
    && RequiredCount(fields, |fields|) < MAX_REQUIRED_FIELDS
    && (RequiredCount(fields, |fields|) == 32 ==> m.allShiftedBy32 == Bits(32, false))
    && (forall i :: 0 <= i < |fields| && fields[i].ltype.SubmessageType? ==> CountsOk(m, fields[i].sub))
  }

  ghost predicate FieldsOk(m: Machine, fields: seq<Field>) {
    TagsOk(fields) && CountsOk(m, fields)
  }

  ghost predicate FieldOk(m: Machine, f: Field) {
    f.ltype.SubmessageType? ==> FieldsOk(m, f.sub)
  }

  ghost predicate SubTagsOk(g: Field) {
    g.ltype.SubmessageType? ==> TagsOk(g.sub)
  }

  predicate SameUnion(f: Field, g: Field) {
    f.htype.OneOf? && g.htype.OneOf? && f.union == g.union
  }

  /** The reader's field `f` is the writer's field `g`, but for a submessage whose fields they need not both know. */
  ghost predicate UnderstandsField(f: Field, g: Field)
    decreases g
  {
    && f.tag == g.tag && f.htype == g.htype && f.ltype == g.ltype
    && f.dataSize == g.dataSize && f.arraySize == g.arraySize && f.union == g.union
    && (f.ltype.SubmessageType? ==> Understands(f.sub, g.sub))
  }

  /** A reader that knows `fields` understands a writer that knows `wide`: they mean the same by the tags both
      know, and the writer knows every field the reader requires. */
  ghost predicate Understands(fields: seq<Field>, wide: seq<Field>)
    decreases wide
  {
    && (forall i, j :: 0 <= i < |fields| && 0 <= j < |wide| && fields[i].tag == wide[j].tag ==>
          UnderstandsField(fields[i], wide[j]))
    && (forall i :: 0 <= i < |fields| && fields[i].htype.Required? ==> exists j :: 0 <= j < |wide| && wide[j].tag == fields[i].tag)
  }

  lemma {:induction false} UnderstandsItself(fields: seq<Field>)
    requires TagsOk(fields)
    ensures Understands(fields, fields)
  {
    forall i | 0 <= i < |fields|
      ensures UnderstandsField(fields[i], fields[i])
    {
      if fields[i].ltype.SubmessageType? {
        UnderstandsItself(fields[i].sub);
      }
    }
  }

  // ----- messages -----

  /** A value of the field's type, within the bounds the descriptor declares. */
  ghost predicate Within(f: Field, v: Value)
    decreases f, 1
  {
    match f.ltype
    case VarintType => v.Number? && IntSize(f.dataSize) && SignedFits(v.n, f.dataSize)
    case SVarintType => v.Number? && IntSize(f.dataSize) && SignedFits(v.n, f.dataSize)
    case UVarintType => v.Number? && IntSize(f.dataSize) && UnsignedFits(v.n, f.dataSize)
    case Fixed32Type => v.Number? && UnsignedFits(v.n, 4)
    case Fixed64Type => v.Number? && UnsignedFits(v.n, 8)
    case BytesType => v.Blob? && |v.bytes| + BYTES_OFFSET <= f.dataSize
    case StringType => v.Blob? && |v.bytes| < f.dataSize && forall i :: 0 <= i < |v.bytes| ==> v.bytes[i] != 0
    case FixedLengthBytesType => v.Blob? && |v.bytes| == f.dataSize
    case SubmessageType => v.Sub? && MessageWithin(f.sub, v.msg)
  }

  ghost predicate SlotWithin(f: Field, slot: Slot)
    decreases f, 2
  {
    if f.htype.Repeated? then
      slot.Many? && |slot.items| <= f.arraySize && forall i :: 0 <= i < |slot.items| ==> Within(f, slot.items[i])
    else
      slot.Single? && (slot.has || f.htype.Required? ==> Within(f, slot.value))
  }

  ghost predicate MessageWithin(fields: seq<Field>, msg: seq<Slot>)
    decreases fields, 0
  {
    && |msg| == |fields|
    && (forall i :: 0 <= i < |fields| ==> SlotWithin(fields[i], msg[i]))
    && OneOfsOk(fields, msg)
  }

  /** Something is written for the slot. */
  predicate Present(g: Field, slot: Slot) {
    if slot.Single? then slot.has || g.htype.Required? else slot.items != []
  }

  /** A union holds one member at a time. */
  ghost predicate OneOfsOk(fields: seq<Field>, msg: seq<Slot>) {
    |msg| == |fields| &&
    forall i, j :: 0 <= i < |fields| && 0 <= j < |fields| && i != j && SameUnion(fields[i], fields[j]) ==>
      !(Present(fields[i], msg[i]) && Present(fields[j], msg[j]))
  }

  // ----- what reading a message does to a structure -----

  /** The message has something for the tag. */
  predicate Sent(wide: seq<Field>, msg: seq<Slot>, tag: nat)
    requires |msg| == |wide|
  {
    var j := FindField(wide, tag, 0);
    j.Some? && Present(wide[j.value], msg[j.value])
  }

  /** Another member of the field's oneof was sent. */
  predicate Displaced(fields: seq<Field>, wide: seq<Field>, msg: seq<Slot>, i: nat)
    requires i < |fields| && |msg| == |wide|
  {
    exists h :: 0 <= h < |fields| && h != i && SameUnion(fields[i], fields[h]) && Sent(wide, msg, fields[h].tag)
  }

  /** What a value is read into. */
  function Before(f: Field, slot: Slot): Value {
    if f.htype.OneOf? then DefaultValue(f) else Held(f, slot)
  }

  function MergeValue(f: Field, g: Field, before: Value, v: Value): Value
    decreases g, 0
  {
    if f.ltype.SubmessageType? && v.Sub? && |v.msg| == |g.sub| then
      Sub(MergeFrom(f.sub, g.sub, StartOf(f, before), v.msg, 0))
    else v
  }

  function MergeItems(f: Field, g: Field, items: seq<Value>, j: nat): (r: seq<Value>)
    ensures |r| == if j <= |items| then |items| - j else 0
    decreases g, 1, |items| - j
  {
    if j >= |items| then [] else [MergeValue(f, g, DefaultValue(f), items[j])] + MergeItems(f, g, items, j + 1)
  }

  /** What was sent replaces a value, is merged into a submessage and is added to an array; what was not sent stays as
      it was, except that a member of a oneof gives way to another. */
  function MergeSlot(fields: seq<Field>, wide: seq<Field>, base: seq<Slot>, msg: seq<Slot>, i: nat): Slot
    requires i < |fields| == |base| && |msg| == |wide|
    decreases wide, 0
  {
    var f := fields[i];
    if Sent(wide, msg, f.tag) then
      var j := FindField(wide, f.tag, 0).value;
      match msg[j]
      case Single(_, value) => Single(true, MergeValue(f, wide[j], Before(f, base[i]), value))
      case Many(items) => Many(Items(base[i]) + MergeItems(f, wide[j], items, 0))
    else if Displaced(fields, wide, msg, i) then DefaultSlot(f)
    else base[i]
  }

  function MergeFrom(fields: seq<Field>, wide: seq<Field>, base: seq<Slot>, msg: seq<Slot>, k: nat): (r: seq<Slot>)
    requires |base| == |fields| && |msg| == |wide|
    ensures |r| == if k <= |fields| then |fields| - k else 0
    decreases wide, 1, |fields| - k
  {
    if k >= |fields| then [] else [MergeSlot(fields, wide, base, msg, k)] + MergeFrom(fields, wide, base, msg, k + 1)
  }

  function Merge(fields: seq<Field>, wide: seq<Field>, base: seq<Slot>, msg: seq<Slot>): (r: seq<Slot>)
    requires |base| == |fields| && |msg| == |wide|
    ensures |r| == |fields|
  {
    MergeFrom(fields, wide, base, msg, 0)
  }

  /** A message as it comes back to a structure that holds the defaults. */
  function Canonical(fields: seq<Field>, msg: seq<Slot>): (r: seq<Slot>)
    requires |msg| == |fields|
  {
    Merge(fields, fields, DefaultFrom(fields, 0), msg)
  }

  lemma {:induction false} MergeAt(fields: seq<Field>, wide: seq<Field>, base: seq<Slot>, msg: seq<Slot>, k: nat, i: nat)
    requires |base| == |fields| && |msg| == |wide| && k <= i < |fields|
    ensures MergeFrom(fields, wide, base, msg, k)[i - k] == MergeSlot(fields, wide, base, msg, i)
    decreases i - k
  {
    hide MergeSlot;
    if k < i {
      MergeAt(fields, wide, base, msg, k + 1, i);
    }
  }

  lemma {:induction false} DefaultAt(fields: seq<Field>, k: nat, i: nat)
    requires k <= i < |fields|
    ensures DefaultFrom(fields, k)[i - k] == DefaultSlot(fields[i])
    decreases i - k
  {
    hide DefaultSlot;
    if k < i {
      DefaultAt(fields, k + 1, i);
    }
  }

  // ----- whether the arrays have room -----

  ghost predicate ValueFits(f: Field, g: Field, before: Value, v: Value)
    decreases g, 0
  {
    f.ltype.SubmessageType? ==> v.Sub? && |v.msg| == |g.sub| && Fits(f.sub, g.sub, StartOf(f, before), v.msg)
  }

  ghost predicate SlotFits(f: Field, g: Field, before: Slot, slot: Slot)
    decreases g, 1
  {
    match slot
    case Single(_, value) => ValueFits(f, g, Before(f, before), value)
    case Many(items) =>
      |Items(before)| + |items| <= f.arraySize
      && forall j :: 0 <= j < |items| ==> ValueFits(f, g, DefaultValue(f), items[j])
  }

  /** Every array the message adds to has room for what is added, at every depth. */
  ghost predicate Fits(fields: seq<Field>, wide: seq<Field>, base: seq<Slot>, msg: seq<Slot>)
    requires |base| == |fields| && |msg| == |wide|
    decreases wide
  {
    forall i, j :: 0 <= i < |fields| && 0 <= j < |wide| && fields[i].tag == wide[j].tag && Present(wide[j], msg[j]) ==>
      SlotFits(fields[i], wide[j], base[i], msg[j])
  }

  /** An empty structure has room for any message within the writer's bounds. */
  lemma {:induction false} DefaultsFit(fields: seq<Field>, wide: seq<Field>, msg: seq<Slot>)
    requires Understands(fields, wide) && MessageWithin(wide, msg)
    ensures Fits(fields, wide, DefaultFrom(fields, 0), msg)
    decreases wide, 1
  {
    hide SlotFits, DefaultFrom, DefaultSlot, UnderstandsField, SlotWithin;
    forall i, j | 0 <= i < |fields| && 0 <= j < |wide| && fields[i].tag == wide[j].tag && Present(wide[j], msg[j])
      ensures SlotFits(fields[i], wide[j], DefaultFrom(fields, 0)[i], msg[j])
    {
      DefaultAt(fields, 0, i);
      assert SlotWithin(wide[j], msg[j]);
      DefaultSlotFits(fields[i], wide[j], msg[j]);
    }
  }

  lemma {:induction false} DefaultSlotFits(f: Field, g: Field, slot: Slot)
    requires UnderstandsField(f, g) && SlotWithin(g, slot) && Present(g, slot)
    ensures SlotFits(f, g, DefaultSlot(f), slot)
    decreases g, 1
  {
    hide Within, ValueFits, DefaultValue;
    match slot
    case Single(_, value) => DefaultValueFits(f, g, value);
    case Many(items) =>
      forall j | 0 <= j < |items|
        ensures ValueFits(f, g, DefaultValue(f), items[j])
      {
        DefaultValueFits(f, g, items[j]);
      }
  }

  lemma {:induction false} DefaultValueFits(f: Field, g: Field, v: Value)
    requires UnderstandsField(f, g) && Within(g, v)
    ensures ValueFits(f, g, DefaultValue(f), v)
    decreases g, 0
  {
    if f.ltype.SubmessageType? {
      DefaultsFit(f.sub, g.sub, v.msg);
    }
  }

  // ----- one more field of the message -----

  lemma {:induction false} FindTells(fields: seq<Field>, tag: nat, k: nat)
    ensures var r := FindField(fields, tag, k);
            if r.Some? then k <= r.value < |fields| && fields[r.value].tag == tag
                            && forall i :: k <= i < r.value ==> fields[i].tag != tag
            else forall i :: k <= i < |fields| ==> fields[i].tag != tag
    decreases |fields| - k
  {
    if k < |fields| && fields[k].tag != tag {
      FindTells(fields, tag, k + 1);
    }
  }

  lemma {:induction false} FindBack(fields: seq<Field>, k: nat)
    requires k < |fields| && TagsOk(fields)
    ensures FindField(fields, fields[k].tag, 0) == Some(k)
  {
    hide FindField;
    FindTells(fields, fields[k].tag, 0);
  }

  lemma {:induction false} FindNext(wide: seq<Field>, k: nat, tag: nat)
    requires k < |wide| && TagsOk(wide)
    ensures FindField(wide[..k + 1], tag, 0) == if wide[k].tag == tag then Some(k) else FindField(wide[..k], tag, 0)
    ensures wide[k].tag == tag ==> FindField(wide[..k], tag, 0) == None
  {
    hide FindField;
    FindTells(wide[..k], tag, 0);
    FindTells(wide[..k + 1], tag, 0);
  }

  lemma {:induction false} SentNext(wide: seq<Field>, msg: seq<Slot>, k: nat, tag: nat)
    requires k < |wide| == |msg| && TagsOk(wide)
    ensures Sent(wide[..k + 1], msg[..k + 1], tag) <==>
              if wide[k].tag == tag then Present(wide[k], msg[k]) else Sent(wide[..k], msg[..k], tag)
    ensures wide[k].tag == tag ==> !Sent(wide[..k], msg[..k], tag)
  {
    hide FindField, Present;
    FindNext(wide, k, tag);
  }

  /** What the structure holds when the first `k` fields of the message have been read. */
  function Upto(fields: seq<Field>, wide: seq<Field>, base: seq<Slot>, msg: seq<Slot>, k: nat): (r: seq<Slot>)
    requires |base| == |fields| && k <= |msg| == |wide|
    ensures |r| == |fields|
  {
    Merge(fields, wide[..k], base, msg[..k])
  }

  lemma {:induction false} UptoAt(fields: seq<Field>, wide: seq<Field>, base: seq<Slot>, msg: seq<Slot>, k: nat, i: nat)
    requires |base| == |fields| && k <= |msg| == |wide| && i < |fields|
    ensures Upto(fields, wide, base, msg, k)[i] == MergeSlot(fields, wide[..k], base, msg[..k], i)
  {
    hide MergeSlot, MergeFrom;
    MergeAt(fields, wide[..k], base, msg[..k], 0, i);
  }

  lemma {:induction false} UptoEnds(fields: seq<Field>, wide: seq<Field>, base: seq<Slot>, msg: seq<Slot>)
    requires |base| == |fields| && |msg| == |wide|
    ensures Upto(fields, wide, base, msg, 0) == base
    ensures Upto(fields, wide, base, msg, |wide|) == Merge(fields, wide, base, msg)
  {
    hide MergeFrom;
    assert wide[..|wide|] == wide && msg[..|wide|] == msg;
    forall i | 0 <= i < |fields|
      ensures Upto(fields, wide, base, msg, 0)[i] == base[i]
    {
      UptoAt(fields, wide, base, msg, 0, i);
      assert forall tag :: !Sent(wide[..0], msg[..0], tag);
    }
  }

  /** A field that the reader does not know, or that was not sent, changes nothing. */
  lemma {:induction false} NothingNew(fields: seq<Field>, wide: seq<Field>, base: seq<Slot>, msg: seq<Slot>, k: nat)
    requires TagsOk(wide) && |base| == |fields| && k < |msg| == |wide|
    requires !Present(wide[k], msg[k]) || forall i :: 0 <= i < |fields| ==> fields[i].tag != wide[k].tag
    ensures Upto(fields, wide, base, msg, k + 1) == Upto(fields, wide, base, msg, k)
  {
    hide Upto, MergeSlot, Sent;
    forall i | 0 <= i < |fields|
      ensures Sent(wide[..k + 1], msg[..k + 1], fields[i].tag) == Sent(wide[..k], msg[..k], fields[i].tag)
    {
      SentNext(wide, msg, k, fields[i].tag);
    }
    forall i | 0 <= i < |fields|
      ensures Upto(fields, wide, base, msg, k + 1)[i] == Upto(fields, wide, base, msg, k)[i]
    {
      UptoAt(fields, wide, base, msg, k, i);
      UptoAt(fields, wide, base, msg, k + 1, i);
      SlotStays(fields, wide, base, msg, k, i);
    }
  }

  lemma {:induction false} SlotStays(fields: seq<Field>, wide: seq<Field>, base: seq<Slot>, msg: seq<Slot>, k: nat, i: nat)
    requires TagsOk(wide) && |base| == |fields| && k < |msg| == |wide| && i < |fields|
    requires Sent(wide[..k + 1], msg[..k + 1], fields[i].tag) == Sent(wide[..k], msg[..k], fields[i].tag)
    requires Displaced(fields, wide[..k + 1], msg[..k + 1], i) == Displaced(fields, wide[..k], msg[..k], i)
    ensures MergeSlot(fields, wide[..k + 1], base, msg[..k + 1], i) == MergeSlot(fields, wide[..k], base, msg[..k], i)
  {
    hide MergeValue, MergeItems, DefaultSlot, Displaced, FindField, Present, Before;
    FindNext(wide, k, fields[i].tag);
  }

  /** A field the reader knows was sent: nothing was in its place before but what the structure held. */
  lemma {:induction false} SlotBefore(fields: seq<Field>, wide: seq<Field>, base: seq<Slot>, msg: seq<Slot>, k: nat, i: nat)
    requires TagsOk(wide) && |base| == |fields| && k < |msg| == |wide|
    requires i < |fields| && fields[i].tag == wide[k].tag && !fields[i].htype.OneOf?
    ensures Upto(fields, wide, base, msg, k)[i] == base[i]
  {
    hide Upto, FindField, Present, MergeValue, MergeItems;
    UptoAt(fields, wide, base, msg, k, i);
    SentNext(wide, msg, k, fields[i].tag);
  }

  /** What the sent field makes of its slot. */
  function Put(f: Field, g: Field, before: Slot, slot: Slot): Slot {
    match slot
    case Single(_, value) => Single(true, MergeValue(f, g, Before(f, before), value))
    case Many(items) => Many(Items(before) + MergeItems(f, g, items, 0))
  }

  lemma {:induction false} SlotPut(fields: seq<Field>, wide: seq<Field>, base: seq<Slot>, msg: seq<Slot>, k: nat, i: nat)
    requires TagsOk(wide) && |base| == |fields| && k < |msg| == |wide|
    requires i < |fields| && fields[i].tag == wide[k].tag && Present(wide[k], msg[k])
    ensures Upto(fields, wide, base, msg, k + 1)[i] == Put(fields[i], wide[k], base[i], msg[k])
  {
    hide Upto, FindField, Present, MergeValue, MergeItems, Before;
    UptoAt(fields, wide, base, msg, k + 1, i);
    SentNext(wide, msg, k, fields[i].tag);
    FindNext(wide, k, fields[i].tag);
  }

  /** Outside a oneof the other slots stay as they are. */
  lemma {:induction false} PutIsNext(fields: seq<Field>, wide: seq<Field>, base: seq<Slot>, msg: seq<Slot>, k: nat, i: nat)
    requires TagsOk(fields) && TagsOk(wide) && |base| == |fields| && k < |msg| == |wide|
    requires i < |fields| && fields[i].tag == wide[k].tag && Present(wide[k], msg[k]) && !fields[i].htype.OneOf?
    ensures Upto(fields, wide, base, msg, k)[i := Put(fields[i], wide[k], base[i], msg[k])] == Upto(fields, wide, base, msg, k + 1)
  {
    hide Upto, MergeSlot, Sent, Put;
    SlotPut(fields, wide, base, msg, k, i);
    forall h | 0 <= h < |fields| && h != i
      ensures Sent(wide[..k + 1], msg[..k + 1], fields[h].tag) == Sent(wide[..k], msg[..k], fields[h].tag)
    {
      SentNext(wide, msg, k, fields[h].tag);
    }
    forall h | 0 <= h < |fields| && h != i
      ensures Upto(fields, wide, base, msg, k + 1)[h] == Upto(fields, wide, base, msg, k)[h]
    {
      UptoAt(fields, wide, base, msg, k, h);
      UptoAt(fields, wide, base, msg, k + 1, h);
      SlotStays(fields, wide, base, msg, k, h);
    }
  }

  lemma {:induction false} ChooseAt(fields: seq<Field>, msg: seq<Slot>, i: nat, v: Value, k: nat, j: nat)
    requires |msg| == |fields| && i < |fields| && k <= j < |fields|
    ensures Choose(fields, msg, i, v, k)[j - k]
            == if j == i then Single(true, v)
               else if fields[j].htype.OneOf? && fields[j].union == fields[i].union then DefaultSlot(fields[j])
               else msg[j]
    decreases j - k
  {
    hide DefaultSlot;
    if k < j {
      ChooseAt(fields, msg, i, v, k + 1, j);
    }
  }

  /** Choosing the member that was sent puts it in its slot and clears the other members, of which none was sent. */
  lemma {:induction false} ChooseIsNext(fields: seq<Field>, wide: seq<Field>, base: seq<Slot>, msg: seq<Slot>, k: nat, i: nat, v: Value)
    requires TagsOk(fields) && TagsOk(wide) && Understands(fields, wide) && OneOfsOk(wide, msg)
    requires |base| == |fields| && k < |msg| == |wide|
    requires i < |fields| && fields[i].tag == wide[k].tag && Present(wide[k], msg[k]) && fields[i].htype.OneOf?
    requires Put(fields[i], wide[k], base[i], msg[k]) == Single(true, v)
    ensures Choose(fields, Upto(fields, wide, base, msg, k), i, v, 0) == Upto(fields, wide, base, msg, k + 1)
  {
    hide Upto, MergeSlot, Sent, Put, Choose, DefaultSlot, Understands, OneOfsOk, Displaced;
    var was, next := Upto(fields, wide, base, msg, k), Upto(fields, wide, base, msg, k + 1);
    SlotPut(fields, wide, base, msg, k, i);
    forall h | 0 <= h < |fields|
      ensures Choose(fields, was, i, v, 0)[h] == next[h]
    {
      ChooseAt(fields, was, i, v, 0, h);
      if h != i {
        UptoAt(fields, wide, base, msg, k, h);
        UptoAt(fields, wide, base, msg, k + 1, h);
        if SameUnion(fields[h], fields[i]) {
          OnlyOneSent(fields, wide, msg, k, i, h);
          MergedDisplaced(fields, wide[..k + 1], base, msg[..k + 1], h);
        } else {
          NotDisplaced(fields, wide, msg, k, i, h);
          SlotStays(fields, wide, base, msg, k, h);
        }
      }
    }
  }

  lemma {:induction false} MergedDisplaced(fields: seq<Field>, wide: seq<Field>, base: seq<Slot>, msg: seq<Slot>, h: nat)
    requires h < |fields| == |base| && |msg| == |wide|
    requires !Sent(wide, msg, fields[h].tag) && Displaced(fields, wide, msg, h)
    ensures MergeSlot(fields, wide, base, msg, h) == DefaultSlot(fields[h])
  {
  }

  lemma {:induction false} OnlyOneSent(fields: seq<Field>, wide: seq<Field>, msg: seq<Slot>, k: nat, i: nat, h: nat)
    requires TagsOk(fields) && TagsOk(wide) && Understands(fields, wide) && OneOfsOk(wide, msg) && k < |wide|
    requires i < |fields| && h < |fields| && h != i && SameUnion(fields[h], fields[i])
    requires fields[i].tag == wide[k].tag && Present(wide[k], msg[k])
    ensures !Sent(wide[..k + 1], msg[..k + 1], fields[h].tag) && Displaced(fields, wide[..k + 1], msg[..k + 1], h)
  {
    hide FindField, Present;
    SentNext(wide, msg, k, fields[i].tag);
    SentNext(wide, msg, k, fields[h].tag);
    FindTells(wide[..k + 1], fields[h].tag, 0);
    var found := FindField(wide[..k + 1], fields[h].tag, 0);
    if found.Some? {
      var j := found.value;
      assert UnderstandsField(fields[h], wide[j]) && UnderstandsField(fields[i], wide[k]);
      assert SameUnion(wide[j], wide[k]);
    }
  }

  lemma {:induction false} NotDisplaced(fields: seq<Field>, wide: seq<Field>, msg: seq<Slot>, k: nat, i: nat, h: nat)
    requires TagsOk(fields) && TagsOk(wide) && k < |wide| == |msg|
    requires i < |fields| && h < |fields| && h != i && !SameUnion(fields[h], fields[i])
    requires fields[i].tag == wide[k].tag
    ensures Sent(wide[..k + 1], msg[..k + 1], fields[h].tag) == Sent(wide[..k], msg[..k], fields[h].tag)
    ensures Displaced(fields, wide[..k + 1], msg[..k + 1], h) == Displaced(fields, wide[..k], msg[..k], h)
  {
    hide Sent, Present;
    forall j | 0 <= j < |fields| && j != i
      ensures Sent(wide[..k + 1], msg[..k + 1], fields[j].tag) == Sent(wide[..k], msg[..k], fields[j].tag)
    {
      SentNext(wide, msg, k, fields[j].tag);
    }
  }
}
