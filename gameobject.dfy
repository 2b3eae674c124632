// The `GameObject` view of one section: an object whose attributes are the
// section's keys, plus `name` (datparser.py:229-239).

module GameObjects {
  import opened Values
  import opened Assoc
  import opened Seqs
  import opened Scanner

  /** The attributes of `GameObject(name, attributes)`: `name` first, then
      each attribute in turn, so that an attribute called `name` replaces
      the section name. */
  function GobAttrs(name: string, attributes: Section): Section
  {
    PutAll([("name", Str(name))], attributes)
  }

  /** What `setattr` raises for an attribute name the object reserves:
      `__dict__` takes only a dict and `__class__` only a class, which no
      value of a section is, and `__weakref__` cannot be written at all. */
  function SetAttrError(key: string): (e: Option<PyError>)
    ensures e.Some? <==> key in ["__dict__", "__class__", "__weakref__"]
    ensures e == Some(AttributeError) <==> key == "__weakref__"
  {
    if key == "__dict__" || key == "__class__" then Some(TypeError)
    else if key == "__weakref__" then Some(AttributeError)
    else None
  }

  /** The exception building `GameObject(name, attributes)` raises: that of
      the first attribute `setattr` refuses, if any does. */
  function BuildError(attributes: Section): (e: Option<PyError>)
    ensures e.None? <==> forall i :: 0 <= i < |attributes| ==> SetAttrError(attributes[i].0).None?
  {
    if attributes == [] then None
    else if SetAttrError(attributes[0].0).Some? then SetAttrError(attributes[0].0)
    else
      var e := BuildError(attributes[1..]);
      assert e.None? <==> forall i :: 0 <= i < |attributes| ==> SetAttrError(attributes[i].0).None? by {
        if e.Some? {
          var i :| 0 <= i < |attributes[1..]| && SetAttrError(attributes[1..][i].0).Some?;
          assert attributes[1..][i] == attributes[i + 1];
        } else {
          forall i | 1 <= i < |attributes| ensures SetAttrError(attributes[i].0).None? {
            assert attributes[1..][i - 1] == attributes[i];
          }
        }
      }
      e
  }

  /** The exception is the one of the first refused attribute. */
  lemma {:induction false} BuildErrorFirst(attributes: Section, i: nat)
    requires i < |attributes| && SetAttrError(attributes[i].0).Some?
    requires forall j :: 0 <= j < i ==> SetAttrError(attributes[j].0).None?
    ensures BuildError(attributes) == SetAttrError(attributes[i].0)
  {
    if i > 0 {
      assert SetAttrError(attributes[0].0).None?;
      assert attributes[1..][i - 1] == attributes[i];
      forall j | 0 <= j < i - 1 ensures SetAttrError(attributes[1..][j].0).None? {
        assert attributes[1..][j] == attributes[j + 1];
      }
      BuildErrorFirst(attributes[1..], i - 1);
    }
  }

  /** An attribute named like one of the object's methods hides it, and
      calling it then raises `TypeError`, since no value is callable. */
  predicate HidesMethod(attrs: Section)
  {
    "getAttr" in Keys(attrs) || "getAttributes" in Keys(attrs)
  }

  class GameObject {
    var attrs: Section

    constructor (name: string, attributes: Section)
      ensures attrs == GobAttrs(name, attributes)
    {
      var a: Section := [("name", Str(name))];
      var i := 0;
      while i < |attributes|
        invariant 0 <= i <= |attributes|
        invariant a == PutAll([("name", Str(name))], attributes[..i])
      {
        TakeTake(attributes, i + 1, i);
        a := Put(a, attributes[i].0, attributes[i].1);
        i := i + 1;
      }
      TakeAll(attributes);
      attrs := a;
    }

    /** `getAttributes`: the object's attribute dict. */
    function GetAttributes(): Section
      reads this
    {
      attrs
    }

    /** `getAttr`: the attribute's value, with `None` standing for the
        `False` Python returns for a missing one. */
    function GetAttr(key: string): (r: Option<Value>)
      reads this
      ensures r.None? <==> key !in Keys(attrs)
      ensures r.Some? ==> (key, r.value) in attrs
    {
      Lookup(attrs, key)
    }
  }

  /** A key literally called `name` overrides the section name; every other
      key holds the section's value; and `name` always comes first. */
  lemma GobLookup(name: string, sec: Section, k: string)
    requires Unique(sec)
    ensures Lookup(GobAttrs(name, sec), "name") ==
              if "name" in Keys(sec) then Lookup(sec, "name") else Some(Str(name))
    ensures k != "name" ==> Lookup(GobAttrs(name, sec), k) == Lookup(sec, k)
    ensures Keys(GobAttrs(name, sec))[0] == "name"
    ensures Unique(GobAttrs(name, sec))
  {
    PutAllLookup([("name", Str(name))], sec, "name");
    PutAllLookup([("name", Str(name))], sec, k);
    PutAllKeys([("name", Str(name))], sec);
    PutAllUnique([("name", Str(name))], sec);
  }

  /** The game object of a section without a key called `name` is the
      section with `name` in front. */
  lemma GobAttrsFresh(name: string, sec: Section)
    requires Unique(sec) && "name" !in Keys(sec)
    ensures GobAttrs(name, sec) == [("name", Str(name))] + sec
  {
    assert Keys([("name", Str(name))]) == ["name"];
    forall i | 0 <= i < |sec| ensures sec[i].0 !in Keys([("name", Str(name))]) {
      assert Keys(sec)[i] == sec[i].0;
    }
    PutAllFresh([("name", Str(name))], sec);
  }
}
