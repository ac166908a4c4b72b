/** The checks `send_promotional_email` makes on a recipient before any message
    is built: all six required keys present, then `float()` of the trip cost. */
module Validation {
  import opened PyValues
  import Seqs

  /** A recipient as decoded from the JSON array: a dict with string keys. */
  type Recipient = map<string, Value>

  /** The required keys, in the order they are checked and reported. */
  const RequiredFields: seq<string> := ["email", "name", "trip_name", "trip_date", "trip_cost", "trip_description"]

  /** `field not in recipient` */
  function NotIn(r: Recipient): string -> bool {
    k => k !in r
  }

  /** `[key]` when `key` is absent from `r`, otherwise nothing. */
  function Absent(r: Recipient, key: string): seq<string> {
    if key in r then [] else [key]
  }

  /** The required keys absent from `r`, in the order of `RequiredFields`:
      the comprehension `[field for field in required_fields if field not in
      recipient]` written out key by key (`MissingFieldsIsFilter` proves the
      two agree). */
  function MissingFields(r: Recipient): seq<string> {
    Absent(r, "email") + (Absent(r, "name") + (Absent(r, "trip_name") + (Absent(r, "trip_date")
      + (Absent(r, "trip_cost") + Absent(r, "trip_description")))))
  }

  /** The result of the checks: the first one that fails, or `Valid`. */
  datatype Verdict =
    | Incomplete(missing: seq<string>)   // some required keys absent
    | BadCost(cost: Value)               // float() raised ValueError or TypeError
    | CostRaised(message: string)        // float() raised something else
    | Valid

  function Validate(r: Recipient, rt: Runtime): (v: Verdict)
    ensures v.Incomplete? <==> MissingFields(r) != []
    ensures v.Incomplete? ==> v.missing == MissingFields(r)
    ensures v.BadCost? ==> "trip_cost" in r && v.cost == r["trip_cost"] && ToFloat(v.cost, rt).Rejected?
    ensures v.BadCost? ==> v.cost.Null? || v.cost.Str? || v.cost.Array? || v.cost.Object?
    ensures v.CostRaised? ==> "trip_cost" in r && ToFloat(r["trip_cost"], rt) == Raised(v.message)
    ensures v.Valid? <==> MissingFields(r) == [] && ToFloat(r["trip_cost"], rt).Converted?
  {
    var missing := MissingFields(r);
    if missing != [] then Incomplete(missing)
    else
      match ToFloat(r["trip_cost"], rt)
      case Rejected => BadCost(r["trip_cost"])
      case Raised(e) => CostRaised(e)
      case Converted => Valid
  }

  lemma RequiredFieldsDistinct()
    ensures Seqs.Distinct(RequiredFields)
  {
    var f := RequiredFields;
    assert |f[0]| == 5 && |f[1]| == 4 && |f[2]| == 9 && |f[3]| == 9 && |f[4]| == 9 && |f[5]| == 16;
    assert f[2][5] == 'n' && f[3][5] == 'd' && f[4][5] == 'c';
  }

  /** The written-out `MissingFields` is the comprehension over `RequiredFields`. */
  lemma MissingFieldsIsFilter(r: Recipient)
    ensures MissingFields(r) == Seqs.Filter(RequiredFields, NotIn(r))
  {
    FilterOfSix(r, "email", "name", "trip_name", "trip_date", "trip_cost", "trip_description");
  }

  /** Filtering six keys by absence from `r` concatenates their `Absent` lists. */
  lemma FilterOfSix(r: Recipient, a: string, b: string, c: string, d: string, e: string, f: string)
    ensures Seqs.Filter([a, b, c, d, e, f], NotIn(r))
         == Absent(r, a) + (Absent(r, b) + (Absent(r, c) + (Absent(r, d) + (Absent(r, e) + Absent(r, f)))))
  {
    var p := NotIn(r);
    var t4 := [e] + [f];
    var t3 := [d] + t4;
    var t2 := [c] + t3;
    var t1 := [b] + t2;
    assert [a, b, c, d, e, f] == [a] + t1;
    Seqs.FilterCons(a, t1, p);
    Seqs.FilterCons(b, t2, p);
    Seqs.FilterCons(c, t3, p);
    Seqs.FilterCons(d, t4, p);
    Seqs.FilterCons(e, [f], p);
    Seqs.FilterCons(f, [], p);
    assert [f] + [] == [f];
  }

  /** The missing list names exactly the absent required keys, in their order. */
  lemma MissingFieldsMembers(r: Recipient)
    ensures forall k :: k in MissingFields(r) <==> k in RequiredFields && k !in r
    ensures Seqs.Subseq(MissingFields(r), RequiredFields)
  {
    MissingFieldsIsFilter(r);
    Seqs.FilterMembers(RequiredFields, NotIn(r));
  }

  /** The missing list is the only list that names exactly the absent required
      keys in their fixed order. */
  lemma MissingFieldsExact(r: Recipient, names: seq<string>)
    requires forall k :: k in names <==> k in RequiredFields && k !in r
    requires Seqs.Subseq(names, RequiredFields)
    ensures names == MissingFields(r)
  {
    RequiredFieldsDistinct();
    MissingFieldsIsFilter(r);
    Seqs.FilterExact(RequiredFields, NotIn(r), names);
  }

  /** Presence is by key only: records with the same keys miss the same fields,
      whatever the values (an empty string counts as present). */
  lemma PresenceByKeyOnly(r: Recipient, r': Recipient)
    requires r.Keys == r'.Keys
    ensures MissingFields(r) == MissingFields(r')
  {
  }
}
