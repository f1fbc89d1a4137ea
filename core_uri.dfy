/** URIs of the core resources: the resource types, the leading-slash rule
    by which core_is_resource_uri compares URIs, oc_store_uri, and the
    URI-to-type lookup oc_core_get_resource_type_by_uri. */
module CoreUri {

  /** The core resource types (oc_core_resource_t) of a build with security
      and PKI on and the optional resources off.  Types below OcfCon are
      platform-wide, the others exist once per logical device. */
  const OcfP := 0
  const OcfCon := 1
  const IntrospectionWk := 2
  const IntrospectionData := 3
  const OcfRes := 4
  const SecDoxm := 5
  const SecPstat := 6
  const SecAcl := 7
  const SecAel := 8
  const SecCred := 9
  const SecSdi := 10
  const SecSp := 11
  const SecCsr := 12
  const SecRoles := 13
  const OcfD := 14

  /** URI with one leading '/' removed, if it has one. */
  function StripSlash(s: string): (r: string)
    ensures |s| > 0 && s[0] == '/' ==> r == s[1..]
    ensures (|s| == 0 || s[0] != '/') ==> r == s
  {
    if |s| > 0 && s[0] == '/' then s[1..] else s
  }

  /** core_is_resource_uri: two URIs name the same resource iff they agree
      after removing at most one leading '/' from each. */
  predicate UriMatches(uri: string, rUri: string) {
    StripSlash(uri) == StripSlash(rUri)
  }

  /** oc_store_uri: the URI as stored in a resource, with a leading '/'
      added when it has none (an empty URI becomes "/"). */
  function StoreUri(s: string): (r: string)
    ensures |r| > 0 && r[0] == '/'
    ensures |s| > 0 && s[0] == '/' ==> r == s
    ensures (|s| == 0 || s[0] != '/') ==> r == ['/'] + s
  {
    if |s| == 0 || s[0] != '/' then ['/'] + s else s
  }

  /** Storing a URI that is already stored changes nothing. */
  lemma StoreUriIdempotent(s: string)
    ensures StoreUri(StoreUri(s)) == StoreUri(s)
  {
  }

  /** A stored URI is one '/' followed by the URI without its leading '/'. */
  lemma StoreUriStrip(s: string)
    ensures StoreUri(s) == ['/'] + StripSlash(s)
    ensures StripSlash(StoreUri(s)) == StripSlash(s)
  {
    if |s| == 0 || s[0] != '/' {
      assert StoreUri(s)[1..] == s;
    } else {
      assert s == ['/'] + s[1..];
    }
  }

  /** Two URIs match iff they are stored as the same string. */
  lemma UriMatchesStored(a: string, b: string)
    ensures UriMatches(a, b) <==> StoreUri(a) == StoreUri(b)
  {
    StoreUriStrip(a);
    StoreUriStrip(b);
    if StoreUri(a) == StoreUri(b) {
      assert StripSlash(a) == StoreUri(a)[1..];
      assert StripSlash(b) == StoreUri(b)[1..];
    }
  }

  /** The URI each core resource is created with, without its leading '/'. */
  function CoreKey(t: int): (r: string)
    requires 0 <= t <= OcfD
    ensures |r| > 0 && r[0] != '/'
  {
    if t == OcfP then "oic/p"
    else if t == OcfCon then "oc/con"
    else if t == IntrospectionWk then "oc/wk/introspection"
    else if t == IntrospectionData then "oc/introspection"
    else if t == OcfRes then "oic/res"
    else if t == SecDoxm then "oic/sec/doxm"
    else if t == SecPstat then "oic/sec/pstat"
    else if t == SecAcl then "oic/sec/acl2"
    else if t == SecAel then "oic/sec/ael"
    else if t == SecCred then "oic/sec/cred"
    else if t == SecSdi then "oic/sec/sdi"
    else if t == SecSp then "oic/sec/sp"
    else if t == SecCsr then "oic/sec/csr"
    else if t == SecRoles then "oic/sec/roles"
    else "oic/d"
  }

  /** The URI each core resource is created with ("/oic/p", "/oc/con", ...). */
  function CoreUriOf(t: int): (r: string)
    requires 0 <= t <= OcfD
    ensures |r| > 1 && r[0] == '/' && StripSlash(r) == CoreKey(t)
  {
    ['/'] + CoreKey(t)
  }

  /** The type whose URI, without its leading '/', is `key`, tested in the
      order of the source; "oc/con" counts only while announced. */
  function TypeOfKey(key: string, announced: bool): (r: int)
    ensures -1 <= r <= OcfD
    ensures r >= 0 ==> key == CoreKey(r)
    ensures r == OcfCon ==> announced
  {
    if key == "oic/p" then OcfP
    else if key == "oic/d" then OcfD
    else if key == "oic/res" then OcfRes
    else if announced && key == "oc/con" then OcfCon
    else if key == "oc/wk/introspection" then IntrospectionWk
    else if key == "oc/introspection" then IntrospectionData
    else if key == "oic/sec/pstat" then SecPstat
    else if key == "oic/sec/doxm" then SecDoxm
    else if key == "oic/sec/acl2" then SecAcl
    else if key == "oic/sec/cred" then SecCred
    else if key == "oic/sec/ael" then SecAel
    else if key == "oic/sec/sp" then SecSp
    else if key == "oic/sec/csr" then SecCsr
    else if key == "oic/sec/roles" then SecRoles
    else if key == "oic/sec/sdi" then SecSdi
    else -1
  }

  /** oc_core_get_resource_type_by_uri: the first core resource whose URI
      the argument matches (core_is_resource_uri), -1 when none does. */
  function TypeByUri(uri: string, announced: bool): (r: int)
    ensures -1 <= r <= OcfD
    ensures r >= 0 ==> UriMatches(uri, CoreUriOf(r))
    ensures r == OcfCon ==> announced
  {
    TypeOfKey(StripSlash(uri), announced)
  }

  /** A URI has the same type with or without its leading '/', and as stored. */
  lemma TypeByUriStored(uri: string, announced: bool)
    ensures TypeByUri(StoreUri(uri), announced) == TypeByUri(uri, announced)
    ensures |uri| == 0 || uri[0] != '/' ==> TypeByUri(['/'] + uri, announced) == TypeByUri(uri, announced)
  {
    StoreUriStrip(uri);
  }

  /** The empty URI is no core resource. */
  lemma TypeByUriEmpty(announced: bool)
    ensures TypeByUri("", announced) == -1
    ensures TypeByUri("/", announced) == -1
  {
    assert StripSlash("/") == "";
  }

  /** Every core URI, with or without its leading '/', gives back its own
      type; "/oc/con" does so only while announced and is unknown otherwise. */
  lemma TypeByUriRoundTrip(t: int, announced: bool)
    requires 0 <= t <= OcfD
    ensures t != OcfCon || announced ==> TypeByUri(CoreUriOf(t), announced) == t
    ensures t != OcfCon || announced ==> TypeByUri(CoreKey(t), announced) == t
    ensures t == OcfCon && !announced ==> TypeByUri(CoreUriOf(t), announced) == -1
  {
    assert StripSlash(CoreKey(t)) == CoreKey(t);
  }
}
