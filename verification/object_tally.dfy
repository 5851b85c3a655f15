/** The tag reduce of `todo_stats` exactly as written (src/index.ts:252-255),
    accumulating into a plain object literal `{}`. A property read `acc[tag]`
    finds the object's own properties first and then the members inherited
    from `Object.prototype`. For a tag named like an inherited method
    ("toString", "constructor", ...) the read returns that function, which is
    truthy, so `(acc[tag] || 0) + 1` concatenates the function's source text
    with "1" and stores the resulting string as the tag's "count". For the tag
    "__proto__" the read returns `Object.prototype` and the assignment of a
    string to `__proto__` is ignored, so the tag is dropped. `Stats.TallyAll`
    is the corrected reduce, which looks up own counters only. */
module ObjectTally {
  import opened Stats

  /** Inherited members of `Object.prototype` that are functions. */
  const InheritedMethods: set<string> := {
    "constructor", "hasOwnProperty", "isPrototypeOf", "propertyIsEnumerable",
    "toLocaleString", "toString", "valueOf",
    "__defineGetter__", "__defineSetter__", "__lookupGetter__", "__lookupSetter__"
  }

  /** The accessor whose setter ignores non-object values. */
  const ProtoAccessor: string := "__proto__"

  /** The value of an own property of the accumulator: a number, or a string
      made by `+ 1` on a function (its characters are not modelled). */
  datatype Value = Number(n: nat) | Text

  datatype Property = Property(tag: string, value: Value)

  function PropertyTags(acc: seq<Property>): seq<string> {
    if |acc| == 0 then [] else [acc[0].tag] + PropertyTags(acc[1..])
  }

  /** `acc[tag] = (acc[tag] || 0) + 1` on the object `acc`, whose own
      properties are listed in creation order. */
  function Bump(acc: seq<Property>, tag: string): (r: seq<Property>)
    ensures tag == ProtoAccessor && tag !in PropertyTags(acc) ==> r == acc
    ensures tag in PropertyTags(acc) || tag == ProtoAccessor ==> PropertyTags(r) == PropertyTags(acc)
    ensures tag !in PropertyTags(acc) && tag != ProtoAccessor ==> PropertyTags(r) == PropertyTags(acc) + [tag]
  {
    if |acc| == 0 then
      if tag == ProtoAccessor then []
      else if tag in InheritedMethods then [Property(tag, Text)]
      else [Property(tag, Number(1))]
    else if acc[0].tag == tag then
      [Property(tag, if acc[0].value.Number? then Number(acc[0].value.n + 1) else Text)] + acc[1..]
    else
      [acc[0]] + Bump(acc[1..], tag)
  }

  /** The whole reduce as written. */
  function BumpAll(acc: seq<Property>, tags: seq<string>): (r: seq<Property>)
    ensures forall t :: t in PropertyTags(acc) ==> t in PropertyTags(r)
    ensures forall t :: t in PropertyTags(r) ==> t in PropertyTags(acc) || (t in tags && t != ProtoAccessor)
    decreases |tags|
  {
    if |tags| == 0 then acc else BumpAll(Bump(acc, tags[0]), tags[1..])
  }

  /** The histogram entries as the object's own numeric properties. */
  function AsProperties(h: seq<TagCount>): (r: seq<Property>)
    ensures |r| == |h|
    ensures PropertyTags(r) == TagsOf(h)
  {
    if |h| == 0 then [] else [Property(h[0].tag, Number(h[0].count))] + AsProperties(h[1..])
  }

  /** Away from the inherited names, one step of the reduce as written is the
      corrected step. */
  lemma {:induction false} BumpAgreesOffPrototype(h: seq<TagCount>, tag: string)
    requires tag !in InheritedMethods && tag != ProtoAccessor
    ensures Bump(AsProperties(h), tag) == AsProperties(Tally(h, tag))
  {
    if |h| > 0 && h[0].tag != tag {
      BumpAgreesOffPrototype(h[1..], tag);
    }
  }

  /** When no tag is named like an inherited member, the reduce as written
      computes the corrected histogram. */
  lemma {:induction false} BumpAllAgreesOffPrototype(h: seq<TagCount>, tags: seq<string>)
    requires forall t :: t in tags ==> t !in InheritedMethods && t != ProtoAccessor
    ensures BumpAll(AsProperties(h), tags) == AsProperties(TallyAll(h, tags))
    decreases |tags|
  {
    if |tags| > 0 {
      BumpAgreesOffPrototype(h, tags[0]);
      BumpAllAgreesOffPrototype(Tally(h, tags[0]), tags[1..]);
    }
  }

  /** A record tagged "toString" is reported with a string instead of the count
      1, which the corrected reduce gives. */
  lemma InheritedTagIsMiscounted()
    ensures BumpAll([], ["toString"]) == [Property("toString", Text)]
    ensures TallyAll([], ["toString"]) == [TagCount("toString", 1)]
  {
  }

  /** A record tagged "__proto__" is left out of the histogram, where the
      corrected reduce counts it once. */
  lemma ProtoTagIsDropped()
    ensures BumpAll([], [ProtoAccessor]) == []
    ensures TallyAll([], [ProtoAccessor]) == [TagCount(ProtoAccessor, 1)]
  {
  }
}
