/**
 * The keyboard latch of the prototype (src/js/bee.js, `Controller` and the
 * keydown/keyup handlers): the list of currently pressed keys, each a key
 * record `{which: code}` merged with its control's data.
 */
module BeeController {
  import opened BeeUtil
  import opened Wrappers

  /** `key.which`, `undefined` when the record has no such property. */
  function Which(key: JsObject): Value
  {
    if "which" in key then key["which"] else Undefined
  }

  /** JavaScript's loose equality `==` on the values a key record holds. */
  predicate LooseEquals(a: Value, b: Value)
  {
    a == b || ((a.Null? || a.Undefined?) && (b.Null? || b.Undefined?))
  }

  /** No two pressed keys share a `which`. */
  predicate NoDuplicates(keys: seq<JsObject>)
  {
    forall i, j :: 0 <= i < j < |keys| ==> !LooseEquals(Which(keys[i]), Which(keys[j]))
  }

  /** Some key of `keys` from position `from` on has the same `which` as `key`. */
  function InKeyList(key: JsObject, keys: seq<JsObject>, from: nat): (r: bool)
    requires from <= |keys|
    ensures r <==> exists i :: from <= i < |keys| && LooseEquals(Which(key), Which(keys[i]))
    decreases |keys| - from
  {
    if from == |keys| then false
    else if LooseEquals(Which(key), Which(keys[from])) then true
    else InKeyList(key, keys, from + 1)
  }

  /**
   * The record `getKeyInfo` builds for `keyCode`, scanning the key-code
   * table from entry `from`: the first entry with this code whose name has a
   * control yields `{which: keyCode}` overwritten by that control's fields.
   */
  function KeyInfo(table: seq<(string, int)>, controls: map<string, JsObject>, keyCode: int, from: nat): (r: Option<JsObject>)
    requires from <= |table|
    ensures r.Some? <==> exists i :: from <= i < |table| && table[i].1 == keyCode && table[i].0 in controls
    ensures r.Some? ==> exists i :: from <= i < |table| && table[i].1 == keyCode && table[i].0 in controls &&
                                   r.value == map["which" := Num(keyCode as real)] + controls[table[i].0]
    decreases |table| - from
  {
    if from == |table| then None
    else if keyCode == table[from].1 && table[from].0 in controls then
      Some(map["which" := Num(keyCode as real)] + controls[table[from].0])
    else KeyInfo(table, controls, keyCode, from + 1)
  }

  /** Since the table's codes are distinct, the record comes from the one entry carrying the code. */
  lemma KeyInfoOfEntry(controls: map<string, JsObject>, i: int)
    requires 0 <= i < |KeyCodes| && KeyCodes[i].0 in controls
    ensures KeyInfo(KeyCodes, controls, KeyCodes[i].1, 0) == Some(map["which" := Num(KeyCodes[i].1 as real)] + controls[KeyCodes[i].0])
  {
    KeyCodesDistinct();
  }

  /** When no control carries a `which` of its own, the record keeps the key code as its `which`. */
  lemma KeyInfoKeepsCode(controls: map<string, JsObject>, keyCode: int)
    requires forall name :: name in controls ==> "which" !in controls[name]
    ensures KeyInfo(KeyCodes, controls, keyCode, 0).Some? ==> Which(KeyInfo(KeyCodes, controls, keyCode, 0).value) == Num(keyCode as real)
  {
    if KeyInfo(KeyCodes, controls, keyCode, 0).Some? {
      var i :| 0 <= i < |KeyCodes| && KeyCodes[i].1 == keyCode && KeyCodes[i].0 in controls &&
               KeyInfo(KeyCodes, controls, keyCode, 0).value == map["which" := Num(keyCode as real)] + controls[KeyCodes[i].0];
      assert "which" !in controls[KeyCodes[i].0];
    }
  }

  /** The pressed-key list after `keyCode` is released: its first entry with that `which` is dropped. */
  function RemoveFirst(keys: seq<JsObject>, keyCode: int): (r: seq<JsObject>)
    ensures |r| <= |keys| <= |r| + 1
    ensures |r| < |keys| <==> exists j :: 0 <= j < |keys| && LooseEquals(Num(keyCode as real), Which(keys[j]))
  {
    if keys == [] then []
    else if LooseEquals(Num(keyCode as real), Which(keys[0])) then keys[1..]
    else [keys[0]] + RemoveFirst(keys[1..], keyCode)
  }

  /** A key matching none of the pressed keys leaves the list as it is. */
  lemma {:induction false} RemoveFirstNoMatch(keys: seq<JsObject>, keyCode: int)
    requires forall j :: 0 <= j < |keys| ==> !LooseEquals(Num(keyCode as real), Which(keys[j]))
    ensures RemoveFirst(keys, keyCode) == keys
  {
    if keys != [] {
      RemoveFirstNoMatch(keys[1..], keyCode);
    }
  }

  /** Releasing drops exactly the first matching entry and keeps the others in order. */
  lemma {:induction false} RemoveFirstAt(keys: seq<JsObject>, keyCode: int, i: nat)
    requires i < |keys| && LooseEquals(Num(keyCode as real), Which(keys[i]))
    requires forall j :: 0 <= j < i ==> !LooseEquals(Num(keyCode as real), Which(keys[j]))
    ensures RemoveFirst(keys, keyCode) == keys[..i] + keys[i + 1..]
  {
    if i > 0 {
      var rest := keys[1..];
      assert rest[i - 1] == keys[i];
      RemoveFirstAt(rest, keyCode, i - 1);
      assert rest[..i - 1] + rest[i..] == keys[1..i] + keys[i + 1..];
      assert [keys[0]] + keys[1..i] == keys[..i];
    }
  }

  /** Every key left after a release was pressed before. */
  lemma {:induction false} RemoveFirstSubset(keys: seq<JsObject>, keyCode: int)
    ensures |RemoveFirst(keys, keyCode)| <= |keys| <= |RemoveFirst(keys, keyCode)| + 1
    ensures forall k :: k in RemoveFirst(keys, keyCode) ==> k in keys
  {
    if keys != [] {
      RemoveFirstSubset(keys[1..], keyCode);
    }
  }

  /** Releasing keeps the list free of duplicates and, on such a list, releases the key completely. */
  lemma {:induction false} RemoveFirstReleases(keys: seq<JsObject>, keyCode: int)
    requires NoDuplicates(keys)
    ensures NoDuplicates(RemoveFirst(keys, keyCode))
    ensures forall k :: k in RemoveFirst(keys, keyCode) ==> !LooseEquals(Num(keyCode as real), Which(k))
  {
    if keys != [] {
      var rest := keys[1..];
      assert NoDuplicates(rest) by {
        forall i, j | 0 <= i < j < |rest|
          ensures !LooseEquals(Which(rest[i]), Which(rest[j]))
        {
          assert rest[i] == keys[i + 1] && rest[j] == keys[j + 1];
        }
      }
      RemoveFirstReleases(rest, keyCode);
      RemoveFirstSubset(rest, keyCode);
      if LooseEquals(Num(keyCode as real), Which(keys[0])) {
        forall k | k in rest
          ensures !LooseEquals(Num(keyCode as real), Which(k))
        {
          var j :| 0 <= j < |rest| && rest[j] == k;
          assert keys[j + 1] == k;
        }
      } else {
        var r := RemoveFirst(rest, keyCode);
        forall j | 0 <= j < |r|
          ensures !LooseEquals(Which(keys[0]), Which(r[j]))
        {
          assert r[j] in rest;
          var m :| 0 <= m < |rest| && rest[m] == r[j];
          assert keys[m + 1] == r[j];
        }
        assert NoDuplicates([keys[0]] + r) by {
          forall i, j | 0 <= i < j < |[keys[0]] + r|
            ensures !LooseEquals(Which(([keys[0]] + r)[i]), Which(([keys[0]] + r)[j]))
          {
            if i > 0 {
              assert ([keys[0]] + r)[i] == r[i - 1] && ([keys[0]] + r)[j] == r[j - 1];
            }
          }
        }
      }
    }
  }

  /** The controller: the pressed keys, in pressing order, and the control data per key name. */
  class Controller {
    var keydown: seq<JsObject>
    var controls: map<string, JsObject>

    constructor (controls: map<string, JsObject>)
      ensures this.controls == controls && keydown == []
    {
      this.controls := controls;
      keydown := [];
    }

    /** `inKeyArray`: some pressed key has the same `which` as `key`. */
    predicate InKeyArray(key: JsObject)
      reads this
      ensures InKeyArray(key) <==> exists i :: 0 <= i < |keydown| && LooseEquals(Which(key), Which(keydown[i]))
    {
      InKeyList(key, keydown, 0)
    }

    /**
     * `getKeyInfo`: builds `{which: keyCode}` and merges the first matching control into it.
     * The key-code table it scans is a parameter; the game passes `KeyCodes`.
     */
    method GetKeyInfo(table: seq<(string, int)>, keyCode: int) returns (key: Option<JsObject>)
      ensures key == KeyInfo(table, controls, keyCode, 0)
    {
      var record := new JsRecord(map["which" := Num(keyCode as real)]);
      var i := 0;
      while i < |table|
        invariant 0 <= i <= |table|
        invariant KeyInfo(table, controls, keyCode, 0) == KeyInfo(table, controls, keyCode, i)
        invariant record.props == map["which" := Num(keyCode as real)]
      {
        var button := table[i].0;
        if keyCode == table[i].1 && button in controls {
          MergeObj(record, controls[button]);
          return Some(record.props);
        }
        i := i + 1;
      }
      return None;
    }
  
    /**
     * The keydown handler's list update: Escape leaves the list alone; any
     * other key with a control is appended unless a key with its `which`
     * is already pressed.
     */
    method OnKeyDown(keyCode: int)
      requires NoDuplicates(keydown)
      modifies this`keydown
      ensures keyCode == Escape ==> keydown == old(keydown)
      ensures keyCode != Escape && KeyInfo(KeyCodes, controls, keyCode, 0).Some? &&
              !InKeyList(KeyInfo(KeyCodes, controls, keyCode, 0).value, old(keydown), 0) ==>
                keydown == old(keydown) + [KeyInfo(KeyCodes, controls, keyCode, 0).value]
      ensures keyCode != Escape && (KeyInfo(KeyCodes, controls, keyCode, 0).None? ||
              InKeyList(KeyInfo(KeyCodes, controls, keyCode, 0).value, old(keydown), 0)) ==>
                keydown == old(keydown)
      ensures NoDuplicates(keydown)
    {
      if keyCode == Escape {
        return;
      }
      var key := GetKeyInfo(KeyCodes, keyCode);
      if key.Some? && !InKeyArray(key.value) {
        keydown := keydown + [key.value];
      }
    }

    /** The keyup handler's list update: the first pressed key with this code is spliced out. */
    method OnKeyUp(keyCode: int)
      requires NoDuplicates(keydown)
      modifies this`keydown
      ensures keydown == RemoveFirst(old(keydown), keyCode)
      ensures NoDuplicates(keydown)
      ensures forall k :: k in keydown ==> !LooseEquals(Num(keyCode as real), Which(k))
    {
      RemoveFirstReleases(keydown, keyCode);
      var i := 0;
      while i < |keydown|
        invariant 0 <= i <= |keydown|
        invariant keydown == old(keydown)
        invariant forall j :: 0 <= j < i ==> !LooseEquals(Num(keyCode as real), Which(keydown[j]))
      {
        if LooseEquals(Num(keyCode as real), Which(keydown[i])) {
          RemoveFirstAt(keydown, keyCode, i);
          keydown := keydown[..i] + keydown[i + 1..];
          return;
        }
        i := i + 1;
      }
      RemoveFirstNoMatch(keydown, keyCode);
    }
  }
}
