/** SASQueryParameters (azfile/zc_sas_query_params.go): read out of a query's values and written
    back into them. */
module SasParams {
  import opened Text
  import opened SasFormats
  import opened Query

  datatype Key = Sv | Ss | Srt | Spr | St | Se | Sip | Si | Sr | Sp | Sig | Rscc | Rscd | Rsce | Rscl | Rsct

  function Name(k: Key): Text {
    match k
    case Sv => "sv"
    case Ss => "ss"
    case Srt => "srt"
    case Spr => "spr"
    case St => "st"
    case Se => "se"
    case Sip => "sip"
    case Si => "si"
    case Sr => "sr"
    case Sp => "sp"
    case Sig => "sig"
    case Rscc => "rscc"
    case Rscd => "rscd"
    case Rsce => "rsce"
    case Rscl => "rscl"
    case Rsct => "rsct"
  }

  /** The cases of the switch over a lower-cased parameter name. */
  function KeyOf(name: Text): Option<Key> {
    if name == "sv" then Some(Sv)
    else if name == "ss" then Some(Ss)
    else if name == "srt" then Some(Srt)
    else if name == "spr" then Some(Spr)
    else if name == "st" then Some(St)
    else if name == "se" then Some(Se)
    else if name == "sip" then Some(Sip)
    else if name == "si" then Some(Si)
    else if name == "sr" then Some(Sr)
    else if name == "sp" then Some(Sp)
    else if name == "sig" then Some(Sig)
    else if name == "rscc" then Some(Rscc)
    else if name == "rscd" then Some(Rscd)
    else if name == "rsce" then Some(Rsce)
    else if name == "rscl" then Some(Rscl)
    else if name == "rsct" then Some(Rsct)
    else None
  }

  lemma NamesAndKeys(k: Key, x: Text)
    ensures KeyOf(Name(k)) == Some(k) && IsLower(Name(k))
    ensures KeyOf(x) == Some(k) <==> x == Name(k)
  {
  }

  datatype SasQueryParameters = SasQueryParameters(
    version: Text,
    services: Text,
    resourceTypes: Text,
    protocol: Text,
    start: SasTime,
    expiry: SasTime,
    ipRange: IpRange,
    identifier: Text,
    resource: Text,
    permissions: Text,
    signature: Text,
    cacheControl: Text,
    contentDisposition: Text,
    contentEncoding: Text,
    contentLanguage: Text,
    contentType: Text)

  const NO_TIME := SasTime(ZERO_TIME, NoLayout)

  const EMPTY: SasQueryParameters := SasQueryParameters("", "", "", "", NO_TIME, NO_TIME, IpRange(None, None), "", "",
                                                        "", "", "", "", "", "", "")

  ghost predicate ValidParams(p: SasQueryParameters) {
    ValidTime(p.start.time) && ValidTime(p.expiry.time) && ValidIpRange(p.ipRange)
  }

  function SetField(p: SasQueryParameters, k: Key, val: Text): SasQueryParameters {
    match k
    case Sv => p.(version := val)
    case Ss => p.(services := val)
    case Srt => p.(resourceTypes := val)
    case Spr => p.(protocol := val)
    case St => p.(start := ParseSasTime(val))
    case Se => p.(expiry := ParseSasTime(val))
    case Sip => p.(ipRange := ParseIpRange(val))
    case Si => p.(identifier := val)
    case Sr => p.(resource := val)
    case Sp => p.(permissions := val)
    case Sig => p.(signature := val)
    case Rscc => p.(cacheControl := val)
    case Rscd => p.(contentDisposition := val)
    case Rsce => p.(contentEncoding := val)
    case Rscl => p.(contentLanguage := val)
    case Rsct => p.(contentType := val)
  }

  function TimeText(t: SasTime): Text
    requires ValidTime(t.time)
  {
    if t.time.IsZero() then "" else FormatTime(t.time, t.layout)
  }

  /** What addToValues adds under a key; nothing is added when it is empty. */
  function FieldText(p: SasQueryParameters, k: Key): Text
    requires ValidParams(p)
  {
    match k
    case Sv => p.version
    case Ss => p.services
    case Srt => p.resourceTypes
    case Spr => p.protocol
    case St => TimeText(p.start)
    case Se => TimeText(p.expiry)
    case Sip => FormatIpRange(p.ipRange)
    case Si => p.identifier
    case Sr => p.resource
    case Sp => p.permissions
    case Sig => p.signature
    case Rscc => p.cacheControl
    case Rscd => p.contentDisposition
    case Rsce => p.contentEncoding
    case Rscl => p.contentLanguage
    case Rsct => p.contentType
  }

  /** p and q agree in the field of a key. */
  predicate Same(p: SasQueryParameters, q: SasQueryParameters, k: Key) {
    match k
    case Sv => p.version == q.version
    case Ss => p.services == q.services
    case Srt => p.resourceTypes == q.resourceTypes
    case Spr => p.protocol == q.protocol
    case St => p.start == q.start
    case Se => p.expiry == q.expiry
    case Sip => p.ipRange == q.ipRange
    case Si => p.identifier == q.identifier
    case Sr => p.resource == q.resource
    case Sp => p.permissions == q.permissions
    case Sig => p.signature == q.signature
    case Rscc => p.cacheControl == q.cacheControl
    case Rscd => p.contentDisposition == q.contentDisposition
    case Rsce => p.contentEncoding == q.contentEncoding
    case Rscl => p.contentLanguage == q.contentLanguage
    case Rsct => p.contentType == q.contentType
  }

  lemma SameInHalf(p: SasQueryParameters, q: SasQueryParameters)
    requires forall k :: Same(p, q, k)
    ensures p.version == q.version && p.services == q.services && p.resourceTypes == q.resourceTypes
    ensures p.protocol == q.protocol && p.start == q.start && p.expiry == q.expiry && p.ipRange == q.ipRange
    ensures p.identifier == q.identifier
  {
    assert Same(p, q, Sv) && Same(p, q, Ss) && Same(p, q, Srt) && Same(p, q, Spr);
    assert Same(p, q, St) && Same(p, q, Se) && Same(p, q, Sip) && Same(p, q, Si);
  }

  lemma SameEverywhere(p: SasQueryParameters, q: SasQueryParameters)
    requires forall k :: Same(p, q, k)
    ensures p == q
  {
    SameInHalf(p, q);
    assert Same(p, q, Sr) && Same(p, q, Sp) && Same(p, q, Sig) && Same(p, q, Rscc);
    assert Same(p, q, Rscd) && Same(p, q, Rsce) && Same(p, q, Rscl) && Same(p, q, Rsct);
    hide *;
  }

  // ----- Reading -----

  predicate IsSasKey(x: Text) {
    KeyOf(Lower(x)).Some?
  }

  /** The field of k was read from some key of `among` that names it up to case, or from none. */
  ghost predicate FieldRead(values: Values, among: set<Text>, p: SasQueryParameters, k: Key)
    requires among <= values.Keys && NoEmptyLists(values)
  {
    if exists x :: x in among && KeyOf(Lower(x)) == Some(k)
    then exists x :: x in among && KeyOf(Lower(x)) == Some(k) && Same(p, SetField(EMPTY, k, values[x][0]), k)
    else Same(p, EMPTY, k)
  }

  /** p is what newSASQueryParameters may read from the values. Names that differ in case only
      compete, and any of them may win. */
  ghost predicate Reads(values: Values, p: SasQueryParameters)
    requires NoEmptyLists(values)
  {
    forall k :: FieldRead(values, values.Keys, p, k)
  }

  function WithoutSas(values: Values): Values {
    map x | x in values && !IsSasKey(x) :: values[x]
  }

  /** newSASQueryParameters. The values are ranged over in any order; the map that comes back is
      the one passed in, without the SAS parameters if they are to be deleted. */
  method NewSasQueryParameters(values: Values, deleteSasParametersFromValues: bool)
    returns (p: SasQueryParameters, rest: Values)
    requires NoEmptyLists(values)
    ensures Reads(values, p)
    ensures rest == if deleteSasParametersFromValues then WithoutSas(values) else values
  {
    p, rest := EMPTY, values;
    var todo := values.Keys;
    while todo != {}
      invariant todo <= values.Keys
      invariant forall k :: FieldRead(values, values.Keys - todo, p, k)
      invariant rest == if deleteSasParametersFromValues
                        then map x | x in values && (x in todo || !IsSasKey(x)) :: values[x] else values
      decreases todo
    {
      var x :| x in todo;
      var val := values[x][0];
      ghost var before, done := p, values.Keys - todo;
      var k := KeyOf(Lower(x));
      if k.Some? {
        p := SetField(p, k.value, val);
        if deleteSasParametersFromValues {
          rest := map y | y in rest && y != x :: rest[y];
        }
      }
      todo := todo - {x};
      ReadOneMore(values, done, x, before, p);
      assert values.Keys - todo == done + {x};
    }
    assert values.Keys - todo == values.Keys;
  }

  lemma ReadOneMore(values: Values, done: set<Text>, x: Text, p: SasQueryParameters, p': SasQueryParameters)
    requires NoEmptyLists(values) && done + {x} <= values.Keys
    requires forall k :: FieldRead(values, done, p, k)
    requires p' == if IsSasKey(x) then SetField(p, KeyOf(Lower(x)).value, values[x][0]) else p
    ensures forall k :: FieldRead(values, done + {x}, p', k)
  {
    forall k
      ensures FieldRead(values, done + {x}, p', k)
    {
      assert FieldRead(values, done, p, k);
      if KeyOf(Lower(x)) == Some(k) {
        SetIsLocal(p, k, values[x][0], k);
        assert x in done + {x};
      } else if IsSasKey(x) {
        SetIsLocal(p, KeyOf(Lower(x)).value, values[x][0], k);
      }
    }
  }

  /** Setting one field reads the same whatever the others are, and leaves them alone. */
  lemma SetIsLocal(p: SasQueryParameters, k: Key, val: Text, j: Key)
    ensures k == j ==> Same(SetField(p, k, val), SetField(EMPTY, k, val), j)
    ensures k != j ==> Same(SetField(p, k, val), p, j)
  {
  }

  lemma ReadField(values: Values, p: SasQueryParameters, k: Key) returns (p': SasQueryParameters)
    requires NoEmptyLists(values) && Same(p, EMPTY, k)
    ensures FieldRead(values, values.Keys, p', k)
    ensures forall j :: j != k ==> Same(p', p, j)
  {
    p' := p;
    if x :| x in values && KeyOf(Lower(x)) == Some(k) {
      p' := SetField(p, k, values[x][0]);
      SetIsLocal(p, k, values[x][0], k);
      forall j | j != k
        ensures Same(p', p, j)
      {
        SetIsLocal(p, k, values[x][0], j);
      }
    }
  }

  lemma SameReads(values: Values, p: SasQueryParameters, q: SasQueryParameters, k: Key)
    requires NoEmptyLists(values) && Same(q, p, k)
    ensures FieldRead(values, values.Keys, p, k) ==> FieldRead(values, values.Keys, q, k)
    ensures Same(p, EMPTY, k) ==> Same(q, EMPTY, k)
  {
  }

  /** There is always something to read. */
  lemma ReadsExist(values: Values) returns (p: SasQueryParameters)
    requires NoEmptyLists(values)
    ensures Reads(values, p)
  {
    hide FieldRead, Same;
    p := EMPTY;
    AllSame(p);
    for i := 0 to |KEYS|
      invariant forall j :: 0 <= j < i ==> FieldRead(values, values.Keys, p, KEYS[j])
      invariant forall j :: i <= j < |KEYS| ==> Same(p, EMPTY, KEYS[j])
    {
      var before := p;
      p := ReadField(values, before, KEYS[i]);
      forall j | 0 <= j < |KEYS| && j != i
        ensures FieldRead(values, values.Keys, before, KEYS[j]) ==> FieldRead(values, values.Keys, p, KEYS[j])
        ensures Same(before, EMPTY, KEYS[j]) ==> Same(p, EMPTY, KEYS[j])
      {
        KeysDiffer(i, j);
        SameReads(values, before, p, KEYS[j]);
      }
    }
    forall k
      ensures FieldRead(values, values.Keys, p, k)
    {
      var i := Position(k);
    }
  }

  /** And any name may be the one its field is read from. */
  lemma ReadsExistWith(values: Values, x: Text) returns (p: SasQueryParameters)
    requires NoEmptyLists(values) && x in values && IsSasKey(x)
    ensures Reads(values, p)
    ensures var k := KeyOf(Lower(x)).value; Same(p, SetField(EMPTY, k, values[x][0]), k)
  {
    var before := ReadsExist(values);
    var k := KeyOf(Lower(x)).value;
    p := SetField(before, k, values[x][0]);
    SetIsLocal(before, k, values[x][0], k);
    forall j
      ensures FieldRead(values, values.Keys, p, j)
    {
      assert FieldRead(values, values.Keys, before, j);
      if j != k {
        SetIsLocal(before, k, values[x][0], j);
        SameReads(values, before, p, j);
      }
    }
  }

  lemma AllSame(p: SasQueryParameters)
    ensures forall k :: Same(p, p, k)
  {
  }

  lemma KeysDiffer(i: nat, j: nat)
    requires i < |KEYS| && j < |KEYS| && i != j
    ensures KEYS[i] != KEYS[j]
  {
  }

  // ----- Writing -----

  const KEYS: seq<Key> := [Sv, Ss, Srt, Spr, St, Se, Sip, Si, Sr, Sp, Sig, Rscc, Rscd, Rsce, Rscl, Rsct]

  /** The first n fields that are set, each under its name. */
  function FirstValues(p: SasQueryParameters, n: nat): Values
    requires ValidParams(p) && n <= |KEYS|
  {
    if n == 0 then map[] else
    var k := KEYS[n - 1];
    if FieldText(p, k) == [] then FirstValues(p, n - 1) else FirstValues(p, n - 1)[Name(k) := [FieldText(p, k)]]
  }

  /** What addToValues makes of an empty map. */
  function ToValues(p: SasQueryParameters): Values
    requires ValidParams(p)
  {
    FirstValues(p, |KEYS|)
  }

  lemma Position(k: Key) returns (i: nat)
    ensures i < |KEYS| && KEYS[i] == k
  {
    i := match k
      case Sv => 0 case Ss => 1 case Srt => 2 case Spr => 3 case St => 4 case Se => 5 case Sip => 6 case Si => 7
      case Sr => 8 case Sp => 9 case Sig => 10 case Rscc => 11 case Rscd => 12 case Rsce => 13 case Rscl => 14
        case Rsct => 15;
  }

  lemma KeysDistinct(i: nat, j: nat)
    requires i < j < |KEYS|
    ensures Name(KEYS[i]) != Name(KEYS[j])
  {
    NamesAndKeys(KEYS[i], Name(KEYS[i]));
    NamesAndKeys(KEYS[j], Name(KEYS[j]));
  }

  /** Exactly the fields that are set appear, each under its name with its text. */
  lemma {:induction false} FirstValuesAt(p: SasQueryParameters, n: nat, i: nat)
    requires ValidParams(p) && n <= |KEYS| && i < |KEYS|
    ensures Name(KEYS[i]) in FirstValues(p, n) <==> i < n && FieldText(p, KEYS[i]) != []
    ensures Name(KEYS[i]) in FirstValues(p, n) ==> FirstValues(p, n)[Name(KEYS[i])] == [FieldText(p, KEYS[i])]
    ensures forall x :: x in FirstValues(p, n) ==> IsLower(x) && IsSasKey(x)
  {
    hide FieldText, Name, KeyOf, Lower;
    if n > 0 {
      FirstValuesAt(p, n - 1, i);
      NamesAndKeys(KEYS[n - 1], Name(KEYS[n - 1]));
      if i < n - 1 {
        KeysDistinct(i, n - 1);
      } else if n - 1 < i {
        KeysDistinct(n - 1, i);
      }
    }
  }

  lemma ToValuesAt(p: SasQueryParameters, k: Key)
    requires ValidParams(p)
    ensures Name(k) in ToValues(p) <==> FieldText(p, k) != []
    ensures Name(k) in ToValues(p) ==> ToValues(p)[Name(k)] == [FieldText(p, k)]
    ensures forall x :: x in ToValues(p) ==> IsLower(x) && IsSasKey(x)
  {
    var i := Position(k);
    FirstValuesAt(p, |KEYS|, i);
  }

  /** url.Values.Add. */
  function Add(v: Values, key: Text, value: Text): Values {
    v[key := (if key in v then v[key] else []) + [value]]
  }

  lemma AddNew(v: Values, m: Values, key: Text, value: Text)
    requires key !in v && key !in m
    ensures Add(v + m, key, value) == v + m[key := [value]]
  {
    assert [] + [value] == [value];
  }

  /** addToValues: one Add for every field that is set. On a map without SAS parameters this is
      the union with what the parameters say alone. */
  method AddToValues(p: SasQueryParameters, v: Values) returns (r: Values)
    requires ValidParams(p)
    requires forall k :: Name(k) !in v
    ensures r == v + ToValues(p)
  {
    r := v;
    hide FieldText, Name, Add;
    for i := 0 to |KEYS|
      invariant r == v + FirstValues(p, i)
    {
      var k := KEYS[i];
      FirstValuesAt(p, i, i);
      if FieldText(p, k) != [] {
        AddNew(v, FirstValues(p, i), Name(k), FieldText(p, k));
        r := Add(r, Name(k), FieldText(p, k));
      }
    }
  }

  /** SASQueryParameters.Encode. */
  ghost function EncodeSas(p: SasQueryParameters): Text
    requires ValidParams(p)
  {
    Encode(ToValues(p))
  }

  // ----- The round trip -----

  function NormalTime(t: SasTime): SasTime {
    if t.time.IsZero() then NO_TIME else Printed(t)
  }

  /** What writing keeps: times as far as their layout shows them, no end of a range without start. */
  function Normalize(p: SasQueryParameters): SasQueryParameters {
    p.(start := NormalTime(p.start), expiry := NormalTime(p.expiry),
       ipRange := if p.ipRange.start.None? then IpRange(None, None) else p.ipRange)
  }

  lemma FieldRoundTrip(p: SasQueryParameters, k: Key)
    requires ValidParams(p)
    ensures FieldText(p, k) != [] ==> Same(SetField(EMPTY, k, FieldText(p, k)), Normalize(p), k)
    ensures FieldText(p, k) == [] ==> Same(EMPTY, Normalize(p), k)
  {
    match k
    case St => ParseFormatTime(p.start);
    case Se => ParseFormatTime(p.expiry);
    case Sip => ParseFormatIpRange(p.ipRange);
    case _ =>
  }

  /** Parameters written into a map among others that are none of theirs are read back, up to
      normalisation, in whatever order the map is ranged over; and deleting them leaves the others. */
  lemma WriteThenRead(p: SasQueryParameters, others: Values, q: SasQueryParameters)
    requires ValidParams(p) && NoEmptyLists(others)
    requires forall x :: x in others ==> !IsSasKey(x)
    requires NoEmptyLists(others + ToValues(p)) && Reads(others + ToValues(p), q)
    ensures q == Normalize(p)
    ensures WithoutSas(others + ToValues(p)) == others
  {
    var values := others + ToValues(p);
    forall k
      ensures Same(q, Normalize(p), k)
    {
      assert FieldRead(values, values.Keys, q, k);
      ToValuesAt(p, k);
      FieldRoundTrip(p, k);
      forall x | x in values && KeyOf(Lower(x)) == Some(k)
        ensures x == Name(k) && x in ToValues(p)
      {
        assert IsLower(x);
        NamesAndKeys(k, x);
      }
      NamesAndKeys(k, Name(k));
    }
    SameEverywhere(q, Normalize(p));
    ToValuesAt(p, Sv);
  }

  lemma {:induction false} FirstValuesLists(p: SasQueryParameters, n: nat)
    requires ValidParams(p) && n <= |KEYS|
    ensures NoEmptyLists(FirstValues(p, n))
  {
    if n > 0 {
      FirstValuesLists(p, n - 1);
    }
  }

  /** A time that its layout shows as the zero time, which it is not. */
  predicate ShowsAsZero(t: SasTime) {
    !t.time.IsZero() && Printed(t).time.IsZero()
  }

  lemma NormalTimeKeeps(t: SasTime)
    requires ValidTime(t.time)
    ensures ValidTime(NormalTime(t).time)
    ensures TimeText(NormalTime(t)) == TimeText(t) <==> !ShowsAsZero(t)
  {
    ParseFormatTime(t);
    hide Two;
  }

  lemma NormalizeKeeps(p: SasQueryParameters, k: Key)
    requires ValidParams(p)
    ensures ValidParams(Normalize(p))
    ensures FieldText(Normalize(p), k) == FieldText(p, k) <==>
            !(k == St && ShowsAsZero(p.start)) && !(k == Se && ShowsAsZero(p.expiry))
  {
    NormalTimeKeeps(p.start);
    NormalTimeKeeps(p.expiry);
    hide TimeText, NormalTime, ShowsAsZero, FormatIp;
  }

  lemma {:induction false} SameTexts(p: SasQueryParameters, q: SasQueryParameters, n: nat)
    requires ValidParams(p) && ValidParams(q) && n <= |KEYS|
    requires forall k :: FieldText(p, k) == FieldText(q, k)
    ensures FirstValues(p, n) == FirstValues(q, n)
  {
    hide FieldText, ValidParams;
    if n > 0 {
      SameTexts(p, q, n - 1);
    }
  }

  lemma SameValues(p: SasQueryParameters, q: SasQueryParameters)
    requires ValidParams(p) && ValidParams(q)
    ensures EncodeSas(p) == EncodeSas(q) <==> forall k :: FieldText(p, k) == FieldText(q, k)
  {
    FirstValuesLists(p, |KEYS|);
    FirstValuesLists(q, |KEYS|);
    hide FieldText, ValidParams, FirstValues, Name;
    if forall k :: FieldText(p, k) == FieldText(q, k) {
      SameTexts(p, q, |KEYS|);
    }
    if EncodeSas(p) == EncodeSas(q) {
      ParseEncode(ToValues(p));
      ParseEncode(ToValues(q));
      forall k
        ensures FieldText(p, k) == FieldText(q, k)
      {
        ToValuesAt(p, k);
        ToValuesAt(q, k);
      }
    }
  }

  lemma ReadWritten(p: SasQueryParameters, values: Values, q: SasQueryParameters)
    requires ValidParams(p) && values == ToValues(p) && NoEmptyLists(values) && Reads(values, q)
    ensures q == Normalize(p)
  {
    hide ValidParams, Reads, Normalize, ToValues;
    var none: Values := map[];
    assert none + ToValues(p) == values;
    WriteThenRead(p, none, q);
  }

  lemma ReadEncoded(p: SasQueryParameters, q: SasQueryParameters)
    requires ValidParams(p) && Reads(ParseValues(EncodeSas(p)), q)
    ensures q == Normalize(p)
  {
    hide ValidParams, Reads, Normalize, FirstValues, ParseValues, Encode;
    FirstValuesLists(p, |KEYS|);
    ParseEncode(ToValues(p));
    hide ToValues;
    ReadWritten(p, ParseValues(EncodeSas(p)), q);
  }

  /** Parameters that were encoded, parsed and encoded again make the same query, unless a time of
      the first day or minute there is was cut down to the zero time. */
  lemma EncodeStable(p: SasQueryParameters, q: SasQueryParameters)
    requires ValidParams(p) && Reads(ParseValues(EncodeSas(p)), q)
    ensures q == Normalize(p) && ValidParams(q)
    ensures EncodeSas(q) == EncodeSas(p) <==> !ShowsAsZero(p.start) && !ShowsAsZero(p.expiry)
  {
    hide FieldText, ValidParams, Reads, Normalize, EncodeSas, ParseValues, ShowsAsZero;
    ReadEncoded(p, q);
    NormalizeKeeps(p, St);
    NormalizeKeeps(p, Se);
    SameValues(q, p);
    forall k
      ensures FieldText(q, k) == FieldText(p, k) <==>
              !(k == St && ShowsAsZero(p.start)) && !(k == Se && ShowsAsZero(p.expiry))
    {
      NormalizeKeeps(p, k);
    }
    if EncodeSas(q) == EncodeSas(p) {
      assert FieldText(q, St) == FieldText(p, St) && FieldText(q, Se) == FieldText(p, Se);
    }
  }
}
