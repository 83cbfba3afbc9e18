/** `get_group_key`: the label under which `clean_outline_layer` groups outlines, computed
    from the attributes `Type`, `M`, `MN`, `B` and `K` of a feature. Both versions of the
    script carry it; they differ only in how the tests "absent or zero" are spelled. */
module GroupKey {
  import opened Text

  /** An attribute value as the layer hands it over: NULL, an integer or a string. */
  datatype Raw = Null | RInt(i: int) | RStr(s: string)

  /** The attributes of a feature, by field name; a field the layer lacks is not in the map. */
  type Attributes = map<string, Raw>

  /** `safe_val(field)`: the attribute, or None when the layer has no such field. */
  function SafeVal(attrs: Attributes, field: string): Raw {
    if field in attrs then attrs[field] else Null
  }

  /** A value after `norm`: None, an integer, or a string that is kept as it is. */
  datatype Value = Absent | Num(n: int) | Str(s: string)

  /** `norm(x)`: None, "" and "None" become None, a string of digits becomes its integer,
      anything else is kept. */
  function Norm(x: Raw): (v: Value)
    ensures v.Str? ==> x == RStr(v.s) && v.s != "" && v.s != "None" && !IsDigits(v.s)
    ensures v.Absent? <==> x in [Null, RStr(""), RStr("None")]
    ensures x.RInt? ==> v == Num(x.i)
    ensures x.RStr? && x.s != "" && IsDigits(x.s) ==> v == Num(DigitsValue(x.s))
  {
    match x
    case Null => Absent
    case RInt(i) => Num(i)
    case RStr(s) =>
      if s in ["", "None"] then Absent
      else if IsDigits(s) then Num(DigitsValue(s))
      else Str(s)
  }

  /** `str(v)`. */
  function Show(v: Value): (r: string)
    ensures |r| > 0 <==> v != Str("")
  {
    match v
    case Absent => "None"
    case Num(n) => IntToString(n)
    case Str(s) => s
  }

  /** `t = str(safe_val("Type")).strip()`, or "" when the value is None. */
  function TypeCode(attrs: Attributes): string {
    match SafeVal(attrs, "Type")
    case Null => ""
    case RInt(i) => Strip(IntToString(i))
    case RStr(s) => Strip(s)
  }

  /** The type codes that take `M` before falling back. */
  const MuTypes: seq<string> := ["MU", "MU/MT", "MT/MU", "MU/KW", "KW"]

  /** `v in [None, 0]`, the spelling of the newer script. */
  predicate Blank(v: Value) {
    v in [Absent, Num(0)]
  }

  /** `b_norm in [None, "", "None", 0, "0"]`. */
  predicate BlankB(v: Value) {
    v in [Absent, Str(""), Str("None"), Num(0), Str("0")]
  }

  /** The final `if m_norm not in [None, 0]: return str(m_norm)` and `return "0"`. */
  function Fallback(m: Value): string {
    if !Blank(m) then Show(m) else "0"
  }

  /** `get_group_key` of new-qgis-workflow-8-8-25.py. */
  function GroupKeyNew(attrs: Attributes): (key: string)
    ensures |key| > 0
  {
    KeyNew(TypeCode(attrs), Norm(SafeVal(attrs, "M")), Norm(SafeVal(attrs, "MN")),
           Norm(SafeVal(attrs, "B")), Norm(SafeVal(attrs, "K")))
  }

  /** The branches of the newer `get_group_key`, on the type code and the normalised fields. */
  function KeyNew(t: string, m: Value, mn: Value, b: Value, k: Value): (key: string)
    requires m != Str("") && mn != Str("") && k != Str("")
    ensures |key| > 0
  {
    if t == "MT" then
      if Blank(m) && Blank(mn) then "0"
      else if !Blank(m) && Blank(mn) then Show(m)
      else if !Blank(mn) && Blank(m) then Show(mn)
      else if !m.Absent? && !mn.Absent? && m == mn then Show(m)
      else if !Blank(mn) then
        if BlankB(b) then Show(mn) else Show(b) + "/" + Show(mn)
      else if !Blank(m) then Show(m)
      else "0"
    else if t in MuTypes then
      if !Blank(m) then Show(m) else Fallback(m)
    else if t == "K" then
      if !Blank(k) then Show(k) else Fallback(m)
    else Fallback(m)
  }

  /** `v is None or v == 0`, the spelling of the older script. */
  predicate NoneOrZero(v: Value) {
    v.Absent? || v == Num(0)
  }

  /** `get_group_key` of qgis-workflow-30-7-25.py. */
  function GroupKeyOld(attrs: Attributes): (key: string)
    ensures |key| > 0
  {
    var t := TypeCode(attrs);
    var m := Norm(SafeVal(attrs, "M"));
    var mn := Norm(SafeVal(attrs, "MN"));
    var b := Norm(SafeVal(attrs, "B"));
    var k := Norm(SafeVal(attrs, "K"));
    if t == "MT" then
      if NoneOrZero(m) && NoneOrZero(mn) then "0"
      else if (!m.Absent? && m != Num(0)) && NoneOrZero(mn) then Show(m)
      else if (!mn.Absent? && mn != Num(0)) && NoneOrZero(m) then Show(mn)
      else if !m.Absent? && !mn.Absent? && m == mn then Show(m)
      else if !Blank(mn) then
        if BlankB(b) then Show(mn) else Show(b) + "/" + Show(mn)
      else if !Blank(m) then Show(m)
      else "0"
    else if t in MuTypes then
      if !Blank(m) then Show(m) else Fallback(m)
    else if t == "K" then
      if !Blank(k) then Show(k) else Fallback(m)
    else Fallback(m)
  }

  // ---------------------------------------------------------------- properties

  /** The two spellings of "absent or zero" agree, so the two scripts group alike. */
  lemma OldAgreesWithNew(attrs: Attributes)
    ensures GroupKeyOld(attrs) == GroupKeyNew(attrs)
  {
  }

  /** In the `MT` branch of the older script, a feature that passes the first four tests has
      a non-blank `MN`, so the test on `MN` always succeeds and its last two returns are never
      reached. */
  lemma OldMtTailUnreachable(attrs: Attributes)
    requires TypeCode(attrs) == "MT"
    requires var m := Norm(SafeVal(attrs, "M")); var mn := Norm(SafeVal(attrs, "MN"));
      && !(NoneOrZero(m) && NoneOrZero(mn))
      && !((!m.Absent? && m != Num(0)) && NoneOrZero(mn))
      && !((!mn.Absent? && mn != Num(0)) && NoneOrZero(m))
    ensures !Blank(Norm(SafeVal(attrs, "M"))) && !Blank(Norm(SafeVal(attrs, "MN")))
  {
  }

  /** A non-blank value never prints as "0": a string "0" would have been normalised to 0. */
  lemma ShowNonBlank(v: Value)
    requires v.Str? ==> !IsDigits(v.s)
    ensures !Blank(v) ==> Show(v) != "0"
  {
    if v.Num? && v.n > 0 {
      DigitsValueOfNatToString(v.n);
      assert DigitsValue("0") == 0;
    }
  }

  /** For type `MT` the key is "0" exactly when both `M` and `MN` are absent or zero; when
      both are present it is `M` if they are equal, else `MN` prefixed by a present `B`. */
  lemma MtKeyMeaning(attrs: Attributes)
    requires TypeCode(attrs) == "MT"
    ensures var m := Norm(SafeVal(attrs, "M")); var mn := Norm(SafeVal(attrs, "MN"));
      var b := Norm(SafeVal(attrs, "B"));
      && (GroupKeyNew(attrs) == "0" <==> Blank(m) && Blank(mn))
      && (!Blank(m) && Blank(mn) ==> GroupKeyNew(attrs) == Show(m))
      && (Blank(m) && !Blank(mn) ==> GroupKeyNew(attrs) == Show(mn))
      && (!Blank(m) && !Blank(mn) ==>
            GroupKeyNew(attrs) ==
              if m == mn then Show(m)
              else if Blank(b) then Show(mn)
              else Show(b) + "/" + Show(mn))
  {
    var m := Norm(SafeVal(attrs, "M"));
    var mn := Norm(SafeVal(attrs, "MN"));
    var b := Norm(SafeVal(attrs, "B"));
    ShowNonBlank(m);
    ShowNonBlank(mn);
    if !Blank(m) && !Blank(mn) && m != mn && !Blank(b) {
      var key := Show(b) + "/" + Show(mn);
      assert key[|Show(b)|] == '/';
      assert key != "0";
    }
  }

  /** Every type other than `MT` and `K`, the `MU` family included, is keyed by `M` when it
      is present and non-zero, and otherwise as "0". */
  lemma FallbackKey(attrs: Attributes)
    requires TypeCode(attrs) !in ["MT", "K"]
    ensures var m := Norm(SafeVal(attrs, "M"));
      GroupKeyNew(attrs) == if Blank(m) then "0" else Show(m)
  {
    assert TypeCode(attrs) != "MT" && TypeCode(attrs) != "K";
  }

  /** The `MU` family adds nothing: those types are keyed exactly like an unknown type. */
  lemma MuBranchRedundant(attrs: Attributes)
    requires TypeCode(attrs) in MuTypes
    ensures GroupKeyNew(attrs) == GroupKeyNew(attrs["Type" := Null])
    ensures var m := Norm(SafeVal(attrs, "M"));
      GroupKeyNew(attrs) == if Blank(m) then "0" else Show(m)
  {
    assert TypeCode(attrs["Type" := Null]) == "";
    FallbackKey(attrs);
    FallbackKey(attrs["Type" := Null]);
  }

  /** For type `K` the key is `K` when it is present and non-zero, and otherwise `M` when that
      is present and non-zero, and otherwise "0". */
  lemma KKeyMeaning(attrs: Attributes)
    requires TypeCode(attrs) == "K"
    ensures var k := Norm(SafeVal(attrs, "K")); var m := Norm(SafeVal(attrs, "M"));
      GroupKeyNew(attrs) == if !Blank(k) then Show(k) else if !Blank(m) then Show(m) else "0"
    ensures var k := Norm(SafeVal(attrs, "K"));
      GroupKeyNew(attrs) == if Blank(k) then GroupKeyNew(attrs["Type" := Null]) else Show(k)
  {
    assert TypeCode(attrs["Type" := Null]) == "";
    FallbackKey(attrs["Type" := Null]);
  }

  /** Only the five fields `Type`, `M`, `MN`, `B` and `K` decide the key. */
  lemma KeyReadsFiveFields(a1: Attributes, a2: Attributes)
    requires forall f :: f in ["Type", "M", "MN", "B", "K"] ==> SafeVal(a1, f) == SafeVal(a2, f)
    ensures GroupKeyNew(a1) == GroupKeyNew(a2)
  {
    assert SafeVal(a1, "Type") == SafeVal(a2, "Type");
    assert TypeCode(a1) == TypeCode(a2);
    assert SafeVal(a1, "M") == SafeVal(a2, "M");
    assert SafeVal(a1, "MN") == SafeVal(a2, "MN");
    assert SafeVal(a1, "B") == SafeVal(a2, "B");
    assert SafeVal(a1, "K") == SafeVal(a2, "K");
  }

  /** A field written as the decimal text of a number normalises to that number, and prints
      back as that text. */
  lemma NormOfDecimalText(n: nat)
    ensures Norm(RStr(NatToString(n))) == Num(n)
    ensures Show(Norm(RStr(NatToString(n)))) == NatToString(n)
  {
    var s := NatToString(n);
    DigitsValueOfNatToString(n);
    assert s != "None" by { assert !IsDigit('N'); }
  }

  /** Digits with leading zeros group with the number they spell: `M = "007"` keys as "7". */
  lemma LeadingZerosExample()
    ensures GroupKeyNew(map["M" := RStr("007")]) == "7"
    ensures GroupKeyNew(map["M" := RStr("007")]) == GroupKeyNew(map["M" := RInt(7)])
  {
    assert IsDigits("007");
    assert "007"[..2] == "00" && "00"[..1] == "0" && "0"[..0] == "";
    assert DigitsValue("007") == 7;
    assert Strip("") == "";
  }

  /** Type `MT` with different `M` and `MN` and a `B` keys as "B/MN". */
  lemma MtExample()
    ensures GroupKeyNew(map["Type" := RStr("MT"), "M" := RStr("5"), "MN" := RInt(8), "B" := RStr("3")]) == "3/8"
  {
    var attrs := map["Type" := RStr("MT"), "M" := RStr("5"), "MN" := RInt(8), "B" := RStr("3")];
    assert StripStart("MT") == 0 && StripEnd("MT", 0) == 2;
    assert TypeCode(attrs) == "MT";
    assert IsDigits("5") && IsDigits("3");
    assert DigitsValue("5") == 5 && DigitsValue("3") == 3;
    assert Norm(SafeVal(attrs, "M")) == Num(5);
    assert Norm(SafeVal(attrs, "MN")) == Num(8);
    assert Norm(SafeVal(attrs, "B")) == Num(3);
  }
}
