/**
 * The input validators `_input_validation_type` and `_input_validation_list`
 * of the Synchronous class (bloomberg_py_wrapper/wrapper_content.py).
 */
module Validation {

  /** `type(variable)`, for the types the validators tell apart. */
  datatype PyType = NoneType | StrType | ListType | TupleType | DictType | OtherType(name: string)

  /** A Python value, as far as the validators look into it. */
  datatype PyValue =
    | None
    | Str(s: string)
    | List(items: seq<PyValue>)
    | Tuple(items: seq<PyValue>)
    | Dict(entries: seq<(PyValue, PyValue)>)  // (key, value) pairs in iteration order
    | Other(typeName: string, repr: string)   // bool, int, float, date, ...: its type and its value

  function TypeOf(v: PyValue): PyType
  {
    match v
    case None => NoneType
    case Str(_) => StrType
    case List(_) => ListType
    case Tuple(_) => TupleType
    case Dict(_) => DictType
    case Other(t, _) => OtherType(t)
  }

  /** The exception a validator raises. */
  datatype Failure =
    | CannotBeOfType  // ValueError: '<name> cannot be of type: ...'
    | MustNotBeEmpty  // ValueError: '<name> must not be empty: ...'
    | MustHaveLength  // ValueError: '<name> must be of length > 0: ...'
    | NotInSet        // ValueError: '<name> of value: ...; must be part of the set: ...'
    | CannotUnpack    // ValueError raised by `for key, item in ...` on a key that is not a pair
    | NotIterable     // TypeError raised by `for key, item in ...` on a key that cannot be iterated

  /** A validator returns a flag or raises. */
  datatype Outcome = Ok(value: bool) | Raise(failure: Failure)

  /** The `num_empty` count: a count, or the exception raised while counting. */
  datatype Count = Counted(n: nat) | CountFailed(failure: Failure)

  const Empty := Str("")

  /** How many items equal ''. */
  function EmptyCount(items: seq<PyValue>): (n: nat)
    ensures n <= |items|
  {
    if items == [] then 0
    else EmptyCount(items[..|items| - 1]) + (if items[|items| - 1] == Empty then 1 else 0)
  }

  /** How many entries of a dictionary have the value ''. */
  function EmptyValueCount(entries: seq<(PyValue, PyValue)>): (n: nat)
    ensures n <= |entries|
  {
    if entries == [] then 0
    else EmptyValueCount(entries[..|entries| - 1]) + (if entries[|entries| - 1].1 == Empty then 1 else 0)
  }

  /** Unpacking a dictionary key into `key, item`: the second half of a pair, or the exception. */
  function SecondOfKey(key: PyValue): (PyValue, Count)
  {
    match key
    case Str(s) => if |s| == 2 then (Str([s[1]]), Counted(0)) else (key, CountFailed(CannotUnpack))
    case List(xs) => if |xs| == 2 then (xs[1], Counted(0)) else (key, CountFailed(CannotUnpack))
    case Tuple(xs) => if |xs| == 2 then (xs[1], Counted(0)) else (key, CountFailed(CannotUnpack))
    case Dict(es) => if |es| == 2 then (es[1].0, Counted(0)) else (key, CountFailed(CannotUnpack))
    case _ => (key, CountFailed(NotIterable))
  }

  /**
   * The dictionary count as the source writes it: `for key, item in variable`
   * iterates the KEYS and unpacks each key into two halves.
   */
  function KeyItemEmptyCount(entries: seq<(PyValue, PyValue)>): Count
  {
    if entries == [] then Counted(0)
    else match KeyItemEmptyCount(entries[..|entries| - 1])
      case CountFailed(f) => CountFailed(f)
      case Counted(n) =>
        var (item, unpacked) := SecondOfKey(entries[|entries| - 1].0);
        if unpacked.CountFailed? then unpacked
        else Counted(n + if item == Empty then 1 else 0)
  }

  /**
   * The checks of `_input_validation_type`, given the outcome of counting the
   * empty entries of a dictionary.
   */
  function ValidateTypeWith(v: PyValue, allowed: set<PyType>, canBeNone: bool, dictEmpty: Count): Outcome
  {
    if !canBeNone then (if v.None? then Raise(CannotBeOfType) else Ok(false))
    else if !v.None? && TypeOf(v) !in allowed then Raise(CannotBeOfType)
    else if v.Str? && v.s == "" then Raise(MustNotBeEmpty)
    else if (v.List? || v.Tuple?) && |v.items| == 0 then Raise(MustHaveLength)
    else if (v.List? || v.Tuple?) && EmptyCount(v.items) == |v.items| then Raise(MustNotBeEmpty)
    else if v.Dict? && |v.entries| == 0 then Raise(MustHaveLength)
    else if v.Dict? && dictEmpty.CountFailed? then Raise(dictEmpty.failure)
    else if v.Dict? && dictEmpty.n == |v.entries| then Raise(MustNotBeEmpty)
    else Ok(!v.None?)
  }

  /** `_input_validation_type` as written: the dictionary loop unpacks keys. */
  function ValidateTypeAsWritten(v: PyValue, allowed: set<PyType>, canBeNone: bool): Outcome
  {
    ValidateTypeWith(v, allowed, canBeNone, if v.Dict? then KeyItemEmptyCount(v.entries) else Counted(0))
  }

  /** `_input_validation_type` with the dictionary loop over `(key, item)` pairs, as intended. */
  function ValidateType(v: PyValue, allowed: set<PyType>, canBeNone: bool): Outcome
  {
    ValidateTypeWith(v, allowed, canBeNone, if v.Dict? then Counted(EmptyValueCount(v.entries)) else Counted(0))
  }

  /** `_input_validation_list`. */
  function ValidateList(v: PyValue, possible: seq<PyValue>, canBeNone: bool): Outcome
  {
    if !canBeNone then (if v.None? then Raise(CannotBeOfType) else Ok(false))
    else if v !in possible then Raise(NotInSet)
    else Ok(true)
  }

  /** A value that holds something: a non-empty string, or a collection with an item other than ''. */
  predicate Filled(v: PyValue)
  {
    match v
    case None => false
    case Str(s) => s != ""
    case List(xs) => exists i :: 0 <= i < |xs| && xs[i] != Empty
    case Tuple(xs) => exists i :: 0 <= i < |xs| && xs[i] != Empty
    case Dict(es) => exists i :: 0 <= i < |es| && es[i].1 != Empty
    case Other(_, _) => true
  }

  lemma {:induction false} EmptyCountAll(items: seq<PyValue>)
    ensures EmptyCount(items) == |items| <==> forall i :: 0 <= i < |items| ==> items[i] == Empty
  {
    if items != [] {
      var init := items[..|items| - 1];
      EmptyCountAll(init);
      assert forall i :: 0 <= i < |init| ==> init[i] == items[i];
    }
  }

  lemma {:induction false} EmptyValueCountAll(entries: seq<(PyValue, PyValue)>)
    ensures EmptyValueCount(entries) == |entries| <==> forall i :: 0 <= i < |entries| ==> entries[i].1 == Empty
  {
    if entries != [] {
      var init := entries[..|entries| - 1];
      EmptyValueCountAll(init);
      assert forall i :: 0 <= i < |init| ==> init[i] == entries[i];
    }
  }

  /** With `can_be_none` False nothing but None is looked at: None raises, anything else gives False. */
  lemma StrictModeChecksOnlyNone(v: PyValue, allowed: set<PyType>, possible: seq<PyValue>)
    ensures ValidateType(v, allowed, false) == ValidateList(v, possible, false)
    ensures ValidateType(v, allowed, false) == if v.None? then Raise(CannotBeOfType) else Ok(false)
  {
  }

  /**
   * With `can_be_none` True, `_input_validation_type` gives False for None,
   * True exactly for a filled value of an allowed type, and raises otherwise.
   */
  lemma TypeCheckAccepts(v: PyValue, allowed: set<PyType>)
    ensures v.None? ==> ValidateType(v, allowed, true) == Ok(false)
    ensures ValidateType(v, allowed, true) == Ok(true) <==> !v.None? && TypeOf(v) in allowed && Filled(v)
    ensures !v.None? ==> ValidateType(v, allowed, true) != Ok(false)
  {
    match v
    case List(xs) => EmptyCountAll(xs);
    case Tuple(xs) => EmptyCountAll(xs);
    case Dict(es) => EmptyValueCountAll(es);
    case _ =>
  }

  /** With `can_be_none` True, `_input_validation_list` accepts exactly the listed values. */
  lemma ListCheckAccepts(v: PyValue, possible: seq<PyValue>)
    ensures ValidateList(v, possible, true) == if v in possible then Ok(true) else Raise(NotInSet)
  {
  }

  /**
   * As written, a dictionary whose first key is a string of any length but
   * two (an override such as {'EQY_FUND_CRNCY': 'USD'}) makes the validator
   * raise ValueError, where the intended check accepts it.
   */
  lemma {:induction false} DictKeysUnpackedAsWritten(entries: seq<(PyValue, PyValue)>, allowed: set<PyType>)
    requires |entries| > 0 && entries[0].0.Str? && |entries[0].0.s| != 2
    requires DictType in allowed
    ensures KeyItemEmptyCount(entries) == CountFailed(CannotUnpack)
    ensures ValidateTypeAsWritten(Dict(entries), allowed, true) == Raise(CannotUnpack)
    ensures entries[0].1 != Empty ==> ValidateType(Dict(entries), allowed, true) == Ok(true)
  {
    FirstKeyFails(entries);
    EmptyValueCountAll(entries);
  }

  lemma {:induction false} FirstKeyFails(entries: seq<(PyValue, PyValue)>)
    requires |entries| > 0 && entries[0].0.Str? && |entries[0].0.s| != 2
    ensures KeyItemEmptyCount(entries) == CountFailed(CannotUnpack)
  {
    if |entries| > 1 {
      var init := entries[..|entries| - 1];
      assert init[0] == entries[0];
      FirstKeyFails(init);
    }
  }

  /** `_input_validation_type`, counting the empty entries with loops as the source does. */
  method InputValidationType(v: PyValue, allowed: set<PyType>, canBeNone: bool) returns (r: Outcome)
    ensures r == ValidateType(v, allowed, canBeNone)
  {
    if !canBeNone {
      if v.None? {
        return Raise(CannotBeOfType);
      }
      return Ok(false);
    }
    if !v.None? && TypeOf(v) !in allowed {
      return Raise(CannotBeOfType);
    }
    if v.Str? && v.s == "" {
      return Raise(MustNotBeEmpty);
    }
    if v.List? || v.Tuple? {
      if |v.items| == 0 {
        return Raise(MustHaveLength);
      }
      var numEmpty := 0;
      var i := 0;
      while i < |v.items|
        invariant 0 <= i <= |v.items|
        invariant numEmpty == EmptyCount(v.items[..i])
      {
        assert v.items[..i + 1][..i] == v.items[..i];
        if v.items[i] == Empty {
          numEmpty := numEmpty + 1;
        }
        i := i + 1;
      }
      assert v.items[..i] == v.items;
      if numEmpty == |v.items| {
        return Raise(MustNotBeEmpty);
      }
    }
    if v.Dict? {
      if |v.entries| == 0 {
        return Raise(MustHaveLength);
      }
      var numEmpty := 0;
      var i := 0;
      while i < |v.entries|
        invariant 0 <= i <= |v.entries|
        invariant numEmpty == EmptyValueCount(v.entries[..i])
      {
        assert v.entries[..i + 1][..i] == v.entries[..i];
        var (_, item) := v.entries[i];
        if item == Empty {
          numEmpty := numEmpty + 1;
        }
        i := i + 1;
      }
      assert v.entries[..i] == v.entries;
      if numEmpty == |v.entries| {
        return Raise(MustNotBeEmpty);
      }
    }
    return Ok(!v.None?);
  }
}
