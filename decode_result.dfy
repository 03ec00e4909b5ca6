/** Outcome of every decoding step.

    The C++ loaders signal every failure by returning -1 and read past the end
    of the buffer without noticing.  The model gives each failure its cause,
    and adds the bounds check the source lacks. */
module DecodeResult {

  /** Why a decode aborted. */
  datatype DecodeError =
    | OutOfBounds(pos: nat, width: nat)     // a read would pass the end of the buffer
    | InvalidConstantTag(tag: int)          // constant-pool tag outside the 17 known ones
    | InvalidNameIndex(index: int)          // attribute name index is not a live pool slot
    | NameNotUtf8(index: int)               // attribute name index resolves to a non-Utf8 entry
    | UnknownAttributeName(name: string)    // none of the 28 attribute names
    | InvalidFrameType(frameType: int)      // stack-map frame type with no branch
    | InvalidElementValueTag(tag: int)      // element_value tag with no case
    | InvalidTargetType(targetType: int)    // type-annotation target_type with no case

  datatype Option<T> = None | Some(value: T)

  /** A value or the reason decoding stopped; usable with `:-`. */
  datatype Result<T> = Ok(value: T) | Err(error: DecodeError) {
    predicate IsFailure() {
      Err?
    }

    function PropagateFailure<U>(): Result<U>
      requires Err?
    {
      Err(error)
    }

    function Extract(): T
      requires Ok?
    {
      value
    }
  }

  /** A decoded item and the cursor position just after it: the model of a
      loader that fills an object and advances `pos` by reference. */
  datatype Parsed<T> = Parsed(item: T, next: nat)

  /** `r` succeeded and its cursor landed inside the buffer, at or after `pos`. */
  predicate Advanced<T>(r: Result<Parsed<T>>, pos: nat, len: nat) {
    r.Ok? ==> pos <= r.value.next <= len
  }

  /** Prefix `done` to the items a list decode still produces; a failure stays a failure.
      This is how a counted loop's partial result relates to the whole decode. */
  function Prepend<T>(done: seq<T>, r: Result<Parsed<seq<T>>>): (q: Result<Parsed<seq<T>>>)
    ensures q.Ok? <==> r.Ok?
    ensures q.Ok? ==> q.value.item == done + r.value.item && q.value.next == r.value.next
  {
    match r
    case Ok(p) => Ok(Parsed(done + p.item, p.next))
    case Err(e) => Err(e)
  }

  /** Prefixing twice is prefixing once with both prefixes. */
  lemma {:induction false} PrependPrepend<T>(a: seq<T>, b: seq<T>, r: Result<Parsed<seq<T>>>)
    ensures Prepend(a, Prepend(b, r)) == Prepend(a + b, r)
  {
    if r.Ok? {
      assert a + (b + r.value.item) == a + b + r.value.item;
    }
  }

  /** Prefixing nothing changes nothing. */
  lemma {:induction false} PrependNothing<T>(r: Result<Parsed<seq<T>>>)
    ensures Prepend([], r) == r
  {
    if r.Ok? {
      assert [] + r.value.item == r.value.item;
    }
  }


  /** Concatenation regroups freely. */
  lemma {:induction false} AppendAssoc<T>(a: seq<T>, b: seq<T>, c: seq<T>)
    ensures a + b + c == a + (b + c)
  {
  }
}
