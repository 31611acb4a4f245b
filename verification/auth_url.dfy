/**
 * `GenerateAuthURL`: the link a user opens to approve a PIN. The required
 * parameters and the optional device metadata are copied into the
 * `authURLQueryOpts` struct, turned into query values by their `url` tags,
 * encoded, and appended to the fixed authorization prefix.
 */
module AuthUrl {
  import opened Wrappers
  import opened ByteStrings
  import opened Errors
  import opened UrlValues
  import opened QueryStruct

  /** `ExtraAuthURLOptions`: device metadata; an empty field is left out of the link. */
  datatype ExtraAuthUrlOptions = ExtraAuthUrlOptions(
    appVersion: Bytes,
    deviceName: Bytes,
    device: Bytes,
    platform: Bytes,
    platformVersion: Bytes)

  const Prefix: Bytes := "https://app.plex.tv/auth#?"

  const ClientIdKey: Bytes := "clientID"
  const CodeKey: Bytes := "code"
  const ProductKey: Bytes := "context[device][product]"
  const VersionKey: Bytes := "context[device][version]"
  const DeviceNameKey: Bytes := "context[device][deviceName]"
  const DeviceKey: Bytes := "context[device][device]"
  const PlatformKey: Bytes := "context[device][platform]"
  const PlatformVersionKey: Bytes := "context[device][platformVersion]"

  const AuthKeys: set<Bytes> := {
    ClientIdKey, CodeKey, ProductKey, VersionKey,
    DeviceNameKey, DeviceKey, PlatformKey, PlatformVersionKey
  }

  /** The fields of `authURLQueryOpts`, in declaration order, with their tags. */
  function QueryFields(appName: Bytes, clientID: Bytes, pinCode: Bytes, extra: ExtraAuthUrlOptions): seq<Field>
  {
    [ Field(ClientIdKey, false, clientID),
      Field(CodeKey, false, pinCode),
      Field(ProductKey, false, appName),
      Field(VersionKey, true, extra.appVersion),
      Field(DeviceNameKey, true, extra.deviceName),
      Field(DeviceKey, true, extra.device),
      Field(PlatformKey, true, extra.platform),
      Field(PlatformVersionKey, true, extra.platformVersion) ]
  }

  /**
   * The authorization link. `query.Values` cannot fail on a struct of
   * string fields, so the error branch of the source is never taken.
   */
  function GenerateAuthURL(appName: Bytes, clientID: Bytes, pinCode: Bytes, extra: ExtraAuthUrlOptions): (r: Returned<Bytes>)
    ensures r.err == None
    ensures |Prefix| < |r.value| && r.value[..|Prefix|] == Prefix
  {
    var query := Encode(Reflect(QueryFields(appName, clientID, pinCode, extra)));
    assert |query| > 0 by {
      EncodeRoundTrip(Reflect(QueryFields(appName, clientID, pinCode, extra)));
    }
    Returned(Prefix + query, None)
  }

  /** The query a browser finds after the prefix, decoded; `None` if the link does not start with the prefix. */
  function AuthQuery(url: Bytes): Option<seq<Pair>>
  {
    if |Prefix| <= |url| && url[..|Prefix|] == Prefix then DecodeQuery(url[|Prefix|..]) else None
  }

  /** Some(v) for a non-empty v, otherwise None: how an `omitempty` field is seen by a reader. */
  function NonEmpty(v: Bytes): Option<Bytes>
  {
    if v == [] then None else Some(v)
  }

  lemma FieldTagsDistinct(appName: Bytes, clientID: Bytes, pinCode: Bytes, extra: ExtraAuthUrlOptions)
    ensures DistinctTags(QueryFields(appName, clientID, pinCode, extra))
  {
  }

  lemma FieldTagsAreAuthKeys(appName: Bytes, clientID: Bytes, pinCode: Bytes, extra: ExtraAuthUrlOptions)
    ensures var fields := QueryFields(appName, clientID, pinCode, extra);
            forall i :: 0 <= i < |fields| ==> fields[i].tag in AuthKeys
  {
  }

  /** The link's query reads back as the struct's values sorted by key. */
  lemma AuthQueryDecodes(appName: Bytes, clientID: Bytes, pinCode: Bytes, extra: ExtraAuthUrlOptions)
    ensures AuthQuery(GenerateAuthURL(appName, clientID, pinCode, extra).value) ==
            Some(SortByKey(Reflect(QueryFields(appName, clientID, pinCode, extra))))
  {
    var ps := Reflect(QueryFields(appName, clientID, pinCode, extra));
    var url := GenerateAuthURL(appName, clientID, pinCode, extra).value;
    assert url[|Prefix|..] == Encode(ps);
    EncodeRoundTrip(ps);
  }

  /** Looking up a field's tag in the decoded link finds the field's value unless `omitempty` dropped it. */
  lemma AuthLookupField(appName: Bytes, clientID: Bytes, pinCode: Bytes, extra: ExtraAuthUrlOptions, i: nat)
    requires i < 8
    ensures var fields := QueryFields(appName, clientID, pinCode, extra);
            var q := AuthQuery(GenerateAuthURL(appName, clientID, pinCode, extra).value);
            q.Some? &&
            Lookup(q.value, fields[i].tag) == if Emitted(fields[i]) then Some(fields[i].value) else None
  {
    var fields := QueryFields(appName, clientID, pinCode, extra);
    AuthQueryDecodes(appName, clientID, pinCode, extra);
    FieldTagsDistinct(appName, clientID, pinCode, extra);
    SortLookup(Reflect(fields), fields[i].tag);
    LookupReflect(fields, i);
  }

  /** The client id, PIN code and application name are always in the link, even when empty. */
  lemma AuthUrlRequiredKeys(appName: Bytes, clientID: Bytes, pinCode: Bytes, extra: ExtraAuthUrlOptions)
    ensures var q := AuthQuery(GenerateAuthURL(appName, clientID, pinCode, extra).value);
            q.Some? &&
            Lookup(q.value, ClientIdKey) == Some(clientID) &&
            Lookup(q.value, CodeKey) == Some(pinCode) &&
            Lookup(q.value, ProductKey) == Some(appName)
  {
    AuthLookupField(appName, clientID, pinCode, extra, 0);
    AuthLookupField(appName, clientID, pinCode, extra, 1);
    AuthLookupField(appName, clientID, pinCode, extra, 2);
  }

  /** Each device-metadata key is in the link exactly when its option is non-empty, and then carries it. */
  lemma AuthUrlOptionalKeys(appName: Bytes, clientID: Bytes, pinCode: Bytes, extra: ExtraAuthUrlOptions)
    ensures var q := AuthQuery(GenerateAuthURL(appName, clientID, pinCode, extra).value);
            q.Some? &&
            Lookup(q.value, VersionKey) == NonEmpty(extra.appVersion) &&
            Lookup(q.value, DeviceNameKey) == NonEmpty(extra.deviceName) &&
            Lookup(q.value, DeviceKey) == NonEmpty(extra.device) &&
            Lookup(q.value, PlatformKey) == NonEmpty(extra.platform) &&
            Lookup(q.value, PlatformVersionKey) == NonEmpty(extra.platformVersion)
  {
    AuthLookupField(appName, clientID, pinCode, extra, 3);
    AuthLookupField(appName, clientID, pinCode, extra, 4);
    AuthLookupField(appName, clientID, pinCode, extra, 5);
    AuthLookupField(appName, clientID, pinCode, extra, 6);
    AuthLookupField(appName, clientID, pinCode, extra, 7);
  }

  /** No key other than the eight tagged ones ever appears in the link. */
  lemma AuthUrlNoOtherKeys(appName: Bytes, clientID: Bytes, pinCode: Bytes, extra: ExtraAuthUrlOptions)
    ensures var q := AuthQuery(GenerateAuthURL(appName, clientID, pinCode, extra).value);
            q.Some? && forall k :: k !in AuthKeys ==> Lookup(q.value, k) == None
  {
    var fields := QueryFields(appName, clientID, pinCode, extra);
    AuthQueryDecodes(appName, clientID, pinCode, extra);
    FieldTagsAreAuthKeys(appName, clientID, pinCode, extra);
    forall k | k !in AuthKeys
      ensures Lookup(SortByKey(Reflect(fields)), k) == None
    {
      SortLookup(Reflect(fields), k);
      LookupReflectAbsent(fields, k);
    }
  }

  /** The link's pairs appear in strictly ascending byte order of their keys. */
  lemma AuthUrlKeysAscending(appName: Bytes, clientID: Bytes, pinCode: Bytes, extra: ExtraAuthUrlOptions)
    ensures var q := AuthQuery(GenerateAuthURL(appName, clientID, pinCode, extra).value);
            q.Some? && StrictlyAscending(q.value) &&
            forall i, j :: 0 <= i < j < |q.value| ==> q.value[i].key != q.value[j].key
  {
    var fields := QueryFields(appName, clientID, pinCode, extra);
    var ps := Reflect(fields);
    AuthQueryDecodes(appName, clientID, pinCode, extra);
    FieldTagsDistinct(appName, clientID, pinCode, extra);
    ReflectKeysUnique(fields);
    SortSorted(ps);
    forall k
      ensures |KeyFilter(SortByKey(ps), k)| <= 1
    {
      SortFilter(ps, k);
    }
    SortedUniqueAscending(SortByKey(ps));
    AscendingKeysDistinct(SortByKey(ps));
  }

  /**
   * A worked link: with no device metadata the link holds exactly the three
   * required pairs, in the order client id, code, product.
   */
  lemma AuthUrlExample()
    ensures AuthQuery(GenerateAuthURL("App", "abc123", "XYZ9", ExtraAuthUrlOptions([], [], [], [], [])).value) ==
            Some([Pair(ClientIdKey, "abc123"), Pair(CodeKey, "XYZ9"), Pair(ProductKey, "App")])
  {
    AuthQueryDecodes("App", "abc123", "XYZ9", ExtraAuthUrlOptions([], [], [], [], []));
    RequiredOnlyValues("App", "abc123", "XYZ9");
    ExampleSorted();
  }

  /** Without device metadata only the three required fields are emitted, in declaration order. */
  lemma RequiredOnlyValues(appName: Bytes, clientID: Bytes, pinCode: Bytes)
    ensures Reflect(QueryFields(appName, clientID, pinCode, ExtraAuthUrlOptions([], [], [], [], []))) ==
            [Pair(ClientIdKey, clientID), Pair(CodeKey, pinCode), Pair(ProductKey, appName)]
  {
    var f := QueryFields(appName, clientID, pinCode, ExtraAuthUrlOptions([], [], [], [], []));
    var rest := f[3..];
    assert forall i :: 0 <= i < |rest| ==> !Emitted(rest[i]);
    ReflectAllSkipped(rest);
    assert f[2..][1..] == rest;
    assert Reflect(f[2..]) == [Pair(ProductKey, appName)] + Reflect(rest);
    assert f[1..][1..] == f[2..];
    assert Reflect(f[1..]) == [Pair(CodeKey, pinCode)] + Reflect(f[2..]);
    assert Reflect(f) == [Pair(ClientIdKey, clientID)] + Reflect(f[1..]);
  }

  lemma ExampleSorted()
    ensures var ps := [Pair(ClientIdKey, "abc123"), Pair(CodeKey, "XYZ9"), Pair(ProductKey, "App")];
            SortByKey(ps) == ps
  {
    var ps := [Pair(ClientIdKey, "abc123"), Pair(CodeKey, "XYZ9"), Pair(ProductKey, "App")];
    assert LexLe(CodeKey[2..], ProductKey[2..]);
    assert LexLe(CodeKey, ProductKey);
    assert LexLe(ClientIdKey[1..], CodeKey[1..]);
    assert LexLe(ClientIdKey, CodeKey);
    assert SortByKey(ps[2..]) == ps[2..];
    assert SortByKey(ps[1..]) == ps[1..];
  }

}
