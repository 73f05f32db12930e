// The field iterator: it walks a list of descriptors round and round, and knows where in the
// structure the current field's data and size are.

module PbFieldIter {
  import opened PbMessages
  import opened PbDecoder

  /** Where a field's data and its has-flag or count are, in the structure. */
  datatype Place = Place(data: int, size: int)

  /** Members of one union lie at the same place; the first of them carries the offset. */
  predicate ContinuesUnion(fields: seq<Field>, k: nat)
    requires 0 < k < |fields|
  {
    fields[k - 1].htype.OneOf? && fields[k].htype.OneOf? && fields[k].dataOffset == PB_SIZE_MAX
  }

  function StoredSize(f: Field): nat {
    if f.htype.Repeated? then f.dataSize * f.arraySize else f.dataSize
  }

  /** The place of field `k` as a function of the descriptors alone. */
  function PlaceOf(fields: seq<Field>, k: nat): Place
    requires k < |fields|
  {
    if k == 0 then Place(fields[0].dataOffset, fields[0].dataOffset + fields[0].sizeOffset)
    else if ContinuesUnion(fields, k) then PlaceOf(fields, k - 1)
    else
      var data := PlaceOf(fields, k - 1).data + StoredSize(fields[k - 1]) + fields[k].dataOffset;
      Place(data, data + fields[k].sizeOffset)
  }

  class FieldIter {
    const fields: seq<Field>
    var pos: nat
    var requiredFieldIndex: nat
    var pData: int
    var pSize: int

    /** However the iterator got to where it is, its bookkeeping is right for the current field. */
    ghost predicate Valid()
      reads this
    {
      if fields == [] then pos == 0 && requiredFieldIndex == 0
      else
        && pos < |fields|
        && requiredFieldIndex == RequiredCount(fields, pos)
        && Place(pData, pSize) == PlaceOf(fields, pos)
    }

    constructor (fields: seq<Field>)
      ensures Valid() && this.fields == fields && pos == 0
    {
      this.fields, pos, requiredFieldIndex := fields, 0, 0;
      pData := if fields == [] then 0 else fields[0].dataOffset;
      pSize := if fields == [] then 0 else fields[0].dataOffset + fields[0].sizeOffset;
    }

    method Begin() returns (more: bool)
      modifies this
      ensures Valid() && pos == 0 && (more <==> fields != [])
    {
      pos, requiredFieldIndex := 0, 0;
      if fields == [] {
        return false;
      }
      pData := fields[0].dataOffset;
      pSize := pData + fields[0].sizeOffset;
      return true;
    }

    /** On to the next field, or back to the first one; the result says which. */
    method Next() returns (more: bool)
      requires Valid()
      modifies this
      ensures Valid()
      ensures more <==> old(pos) + 1 < |fields|
      ensures pos == if more then old(pos) + 1 else 0
    {
      if fields == [] {
        return false;
      }
      var prev := fields[pos];
      pos := pos + 1;
      if pos == |fields| {
        var again := Begin();
        return false;
      }
      var prevSize := prev.dataSize;
      if prev.htype.OneOf? && fields[pos].htype.OneOf? && fields[pos].dataOffset == PB_SIZE_MAX {
        return true;
      } else if prev.htype.Repeated? {
        prevSize := prevSize * prev.arraySize;
      }
      if prev.htype.Required? {
        requiredFieldIndex := requiredFieldIndex + 1;
      }
      pData := pData + prevSize + fields[pos].dataOffset;
      pSize := pData + fields[pos].sizeOffset;
      return true;
    }

    /** Looks once around, from wherever it is: found if and only if some field has the tag. */
    method Find(tag: nat) returns (found: bool)
      requires Valid() && fields != []
      modifies this
      ensures Valid()
      ensures found <==> exists i :: 0 <= i < |fields| && fields[i].tag == tag
      ensures found ==> fields[pos].tag == tag
      ensures !found ==> pos == old(pos)
    {
      var start := pos;
      ghost var steps := 0;
      while true
        invariant Valid() && 0 <= steps < |fields|
        invariant pos == if start + steps < |fields| then start + steps else start + steps - |fields|
        invariant forall i :: 0 <= i < |fields| && Passed(start, steps, i) ==> fields[i].tag != tag
        decreases |fields| - steps
      {
        if fields[pos].tag == tag {
          return true;
        }
        assert forall i :: 0 <= i < |fields| && Passed(start, steps + 1, i) ==> Passed(start, steps, i) || i == pos;
        var more := Next();
        steps := steps + 1;
        if pos == start {
          assert forall i :: 0 <= i < |fields| ==> Passed(start, |fields|, i);
          return false;
        }
      }
    }

    /** Field `i` is among the first `steps` from `start` on, around the end. */
    ghost predicate Passed(start: nat, steps: nat, i: int) {
      start <= i < start + steps || i + |fields| < start + steps
    }
  }
}
