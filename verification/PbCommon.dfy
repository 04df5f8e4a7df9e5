/** The iterator over the fields of a descriptor (pb_common.c), which starts over when it reaches the end. */
module PbCommon {
  import opened Wrappers
  import opened Proto
  import opened ProtoWire

  class FieldIter {
    const desc: Desc
    var pos: nat
    var requiredFieldIndex: nat

    /** The index counts the required fields that lie before the current one. */
    ghost predicate Valid()
      reads this
    {
      && (pos < |desc.fields| || (desc.fields == [] && pos == 0))
      && requiredFieldIndex == RequiredBefore(desc.fields, pos)
    }

    constructor (d: Desc)
      ensures Valid() && desc == d && pos == 0
    {
      desc, pos, requiredFieldIndex := d, 0, 0;
    }

    /** Back to the first field, if there is one. */
    method Begin() returns (ok: bool)
      modifies this
      ensures Valid() && pos == 0
      ensures ok <==> desc.fields != []
    {
      pos, requiredFieldIndex := 0, 0;
      ok := desc.fields != [];
    }

    /** The next field, or the first one again with the answer no. */
    method Next() returns (more: bool)
      requires Valid()
      modifies this
      ensures Valid()
      ensures more <==> old(pos) + 1 < |desc.fields|
      ensures pos == if more then old(pos) + 1 else 0
    {
      if desc.fields == [] {
        return false;
      }
      var prev := desc.fields[pos];
      pos := pos + 1;
      if pos == |desc.fields| {
        var _ := Begin();
        return false;
      }
      if SameUnion(prev, desc.fields[pos]) {
        return true;
      }
      if prev.rule.Required? {
        requiredFieldIndex := requiredFieldIndex + 1;
      }
      more := true;
    }

    /** Whether the field was passed over in a search that began at `from`. */
    ghost predicate Passed(from: nat, wrapped: bool, i: nat)
      reads this
    {
      if wrapped then i < pos || from <= i else from <= i < pos
    }

    /**
      Looks for a field from the current one onwards, all the way round; when the numbers are distinct it
      does not matter where the search begins.
     */
    method Find(tag: nat) returns (found: bool)
      requires Valid()
      modifies this
      ensures Valid()
      ensures found ==> pos < |desc.fields| && desc.fields[pos].tag == tag
      ensures !found ==> pos == old(pos) && forall i :: 0 <= i < |desc.fields| ==> desc.fields[i].tag != tag
      ensures DescOk(desc) ==> Proto.Find(desc, tag) == if found then Some(pos) else None
    {
      if desc.fields == [] {
        return false;
      }
      var from := pos;
      ghost var wrapped := false;
      while true
        invariant Valid() && from < |desc.fields|
        invariant if wrapped then pos < from else from <= pos
        invariant forall i :: 0 <= i < |desc.fields| && Passed(from, wrapped, i) ==> desc.fields[i].tag != tag
        decreases if wrapped then from - pos else |desc.fields| - pos + from + 1
      {
        if desc.fields[pos].tag == tag {
          if DescOk(desc) {
            FindOwn(desc, pos);
          }
          return true;
        }
        ghost var more := pos + 1 < |desc.fields|;
        var _ := Next();
        if pos == from {
          return false;
        }
        wrapped := wrapped || !more;
      }
    }
  }
}
