/**
 * The helpers of the prototype (src/js/bee.js, `Util`): the key-code
 * table, array membership and the one-level object merge.
 *
 * JavaScript objects are modelled as maps from property names to the
 * values that occur in the prototype's key records.
 */
module BeeUtil {

  /** A property value: a number, `null`, `undefined` or a callback record. */
  datatype Value = Num(n: real) | Null | Undefined | Callback(name: string)

  /** A plain object, property name to value. */
  type JsObject = map<string, Value>

  /** `Util.keyCode`, in declaration order. */
  const KeyCodes: seq<(string, int)> := [
    ("BACKSPACE", 8), ("CAPS_LOCK", 20), ("COMMA", 188), ("CONTROL", 17), ("DELETE", 46), ("DOWN", 40),
    ("END", 35), ("ENTER", 13), ("ESCAPE", 27), ("HOME", 36), ("INSERT", 45), ("LEFT", 37),
    ("NUMPAD_ADD", 107), ("NUMPAD_DECIMAL", 110), ("NUMPAD_DIVIDE", 111), ("NUMPAD_ENTER", 108),
    ("NUMPAD_MULTIPLY", 106), ("NUMPAD_SUBTRACT", 109), ("PAGE_DOWN", 34), ("PAGE_UP", 33),
    ("PERIOD", 190), ("RIGHT", 39), ("SHIFT", 16), ("SPACE", 32), ("TAB", 9), ("UP", 38)]

  const Escape: int := 27

  /** No two entries of the table share a name or a code. */
  lemma KeyCodesDistinct()
    ensures forall i, j :: 0 <= i < j < |KeyCodes| ==> KeyCodes[i].0 != KeyCodes[j].0 && KeyCodes[i].1 != KeyCodes[j].1
    ensures exists i :: 0 <= i < |KeyCodes| && KeyCodes[i] == ("ESCAPE", Escape)
  {
    assert KeyCodes[8] == ("ESCAPE", Escape);
  }

  /** `haystack.indexOf(needle)` from position `from`: the first index holding `needle`, or -1. */
  function IndexOf<T(==)>(needle: T, haystack: seq<T>, from: nat): (r: int)
    requires from <= |haystack|
    ensures r == -1 || (from <= r < |haystack| && haystack[r] == needle)
    ensures r == -1 ==> needle !in haystack[from..]
    ensures r != -1 ==> needle !in haystack[from..r]
    decreases |haystack| - from
  {
    if from == |haystack| then -1
    else if haystack[from] == needle then from
    else IndexOf(needle, haystack, from + 1)
  }

  /** `Util.inArray`: true exactly when `haystack` holds `needle`. */
  function InArray<T(==)>(needle: T, haystack: seq<T>): (r: bool)
    ensures r <==> needle in haystack
  {
    assert haystack[0..] == haystack;
    IndexOf(needle, haystack, 0) > -1
  }

  /** An object whose properties are written in place. */
  class JsRecord {
    var props: JsObject

    constructor (props: JsObject)
      ensures this.props == props
    {
      this.props := props;
    }
  }

  /**
   * `Util.mergeObj`: copies every property of `obj2` onto `obj1`,
   * overwriting the ones `obj1` already has and keeping the others.
   */
  method MergeObj(obj1: JsRecord, obj2: JsObject)
    modifies obj1
    ensures obj1.props.Keys == old(obj1.props).Keys + obj2.Keys
    ensures forall p :: p in obj2 ==> obj1.props[p] == obj2[p]
    ensures forall p :: p in old(obj1.props) && p !in obj2 ==> obj1.props[p] == old(obj1.props)[p]
    ensures obj1.props == old(obj1.props) + obj2
  {
    var remaining := obj2.Keys;
    while remaining != {}
      invariant remaining <= obj2.Keys
      invariant obj1.props.Keys == old(obj1.props).Keys + (obj2.Keys - remaining)
      invariant forall p :: p in obj2 && p !in remaining ==> obj1.props[p] == obj2[p]
      invariant forall p :: p in old(obj1.props) && (p !in obj2 || p in remaining) ==> obj1.props[p] == old(obj1.props)[p]
      decreases remaining
    {
      var prop :| prop in remaining;
      obj1.props := obj1.props[prop := obj2[prop]];
      remaining := remaining - {prop};
    }
    assert obj1.props == old(obj1.props) + obj2;
  }
}
