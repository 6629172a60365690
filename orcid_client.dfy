/**
 * The ORCID API client as far as it decides where to ask: the ORCID iD it
 * was made for, the access level and the endpoint, and the URL built from
 * them. Fetching the URL is not part of this model.
 */
module OrcidClient {
  import opened Php

  const Hostname: string := "orcid.org"
  const Version: string := "3.0"
  const DefaultEndpoint: string := "record"
  const DefaultLevel: string := "pub"

  /** The part of the URL before the ORCID iD. */
  function UrlPrefix(level: string): string
  {
    "https://" + level + "." + Hostname + "/v" + Version + "/"
  }

  /** The URL of `endpoint` for `orcid` at access level `level`. */
  function EndpointUrl(level: string, orcid: string, endpoint: string): string
  {
    UrlPrefix(level) + orcid + "/" + endpoint
  }

  /**
   * The URL starts with the host of the access level and the API version,
   * holds the ORCID iD verbatim right after it, and ends with "/" and the
   * endpoint.
   */
  lemma EndpointUrlParts(level: string, orcid: string, endpoint: string)
    ensures var url := EndpointUrl(level, orcid, endpoint);
      var n := |UrlPrefix(level)|;
      && StartsWith(url, "https://" + level + ".orcid.org/v3.0/")
      && n == |level| + 24
      && n + |orcid| < |url|
      && url[n..n + |orcid|] == orcid
      && EndsWith(url, "/" + endpoint)
  {
    var url := EndpointUrl(level, orcid, endpoint);
    assert url == UrlPrefix(level) + (orcid + "/" + endpoint);
    StartsWithAppend(UrlPrefix(level), orcid + "/" + endpoint);
    assert UrlPrefix(level) == "https://" + level + ".orcid.org/v3.0/";
    assert url == UrlPrefix(level) + orcid + ("/" + endpoint);
    EndsWithAppend(UrlPrefix(level) + orcid, "/" + endpoint);
    assert url[|UrlPrefix(level)|..|UrlPrefix(level)| + |orcid|] == orcid;
  }

  /**
   * Different ORCID iDs, or different endpoints without a slash, never share
   * a URL: the iD and the endpoint can be read back from it.
   */
  lemma EndpointUrlInjective(level: string, orcid1: string, endpoint1: string, orcid2: string, endpoint2: string)
    requires '/' !in endpoint1 && '/' !in endpoint2
    ensures EndpointUrl(level, orcid1, endpoint1) == EndpointUrl(level, orcid2, endpoint2)
            <==> orcid1 == orcid2 && endpoint1 == endpoint2
  {
    var p := UrlPrefix(level);
    if EndpointUrl(level, orcid1, endpoint1) == EndpointUrl(level, orcid2, endpoint2) {
      LastComponentsEqual(p + orcid1, endpoint1, p + orcid2, endpoint2);
      var u := p + orcid1 + "/" + endpoint1;
      assert orcid1 == u[|p|..|p| + |orcid1|];
      assert orcid2 == (p + orcid2 + "/" + endpoint2)[|p|..|p| + |orcid2|];
    }
  }

  /** The client: which iD it asks about, at which access level, at which endpoint. */
  class Client {
    var endpoint: string
    var level: string
    var orcid: string

    /** A new client for `orcid0`, asking the public API for the whole record. */
    constructor (orcid0: string)
      ensures orcid == orcid0 && endpoint == DefaultEndpoint && level == DefaultLevel
    {
      endpoint := DefaultEndpoint;
      level := DefaultLevel;
      orcid := orcid0;
    }

    /** `setEndpoint`: only the endpoint changes. */
    method SetEndpoint(endpoint0: string)
      modifies this
      ensures endpoint == endpoint0 && level == old(level) && orcid == old(orcid)
    {
      endpoint := endpoint0;
    }

    /** `getApiEndpoint`: the URL is assembled piece by piece. */
    method GetApiEndpoint() returns (url: string)
      ensures url == EndpointUrl(level, orcid, endpoint)
    {
      url := "https://" + level + "." + Hostname;
      url := url + "/v" + Version + "/";
      url := url + orcid;
      url := url + "/" + endpoint;
    }
  }

  /** A fresh client asks the public API for the whole record of its iD. */
  lemma DefaultUrl(orcid: string)
    ensures EndpointUrl(DefaultLevel, orcid, DefaultEndpoint) == "https://pub.orcid.org/v3.0/" + orcid + "/record"
    ensures EndsWith(EndpointUrl(DefaultLevel, orcid, DefaultEndpoint), "/record")
  {
    EndpointUrlParts(DefaultLevel, orcid, DefaultEndpoint);
  }
}
