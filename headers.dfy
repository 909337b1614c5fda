/**
 * The request headers of the two outbound calls and the status codes that count as
 * success. A Go `http.Header` is a map from header name to a list of values.
 */
module Headers {
  type Header = map<string, seq<string>>

  const PskHeader: string := "x-rh-sources-psk"
  const AccountNumberHeader: string := "x-rh-sources-account-number"
  const OrgIdHeader: string := "x-rh-sources-org-id"
  /** skipEmptySourcesHeader, as the recheck call stores it (a plain map key). */
  const SkipEmptySourcesHeader: string := "x-rh-sources-skip-empty-sources"
  /**
   * The same header as `Header.Add` stores it on the listing call: `Add` files the value
   * under the canonical MIME form of the name. Header names are case-insensitive on the
   * wire, so both spellings name one header.
   */
  const CanonicalSkipEmptySourcesHeader: string := "X-Rh-Sources-Skip-Empty-Sources"
  /** The fixed caller identity of the listing call. */
  const MonitorAccount: string := "sources_monitor"

  const StatusOK: int := 200
  const StatusAccepted: int := 202

  /** A listing reply is usable only with 200 OK. */
  predicate ListingStatusOk(code: int) {
    code == StatusOK
  }

  /** A recheck is accepted only with 202 Accepted. */
  predicate RecheckStatusOk(code: int) {
    code == StatusAccepted
  }

  /** `Header.Add` for a name already in canonical form: appends one value. */
  function AddValue(h: Header, name: string, value: string): (r: Header)
    ensures r.Keys == h.Keys + {name}
    ensures r[name] == (if name in h then h[name] else []) + [value]
    ensures forall k :: k in h && k != name ==> r[k] == h[k]
  {
    h[name := (if name in h then h[name] else []) + [value]]
  }

  /**
   * The headers of GET /internal/v2.0/sources: always the monitor's account number and
   * the pre-shared key, plus the skip-empty signal only when the flag is on.
   */
  method ListingHeaders(psk: string, skipEmpty: bool) returns (h: Header)
    ensures h.Keys == {AccountNumberHeader, PskHeader} + (if skipEmpty then {CanonicalSkipEmptySourcesHeader} else {})
    ensures h[AccountNumberHeader] == [MonitorAccount]
    ensures h[PskHeader] == [psk]
    ensures skipEmpty ==> h[CanonicalSkipEmptySourcesHeader] == ["true"]
  {
    h := map[AccountNumberHeader := [MonitorAccount], PskHeader := [psk]];
    if skipEmpty {
      h := AddValue(h, CanonicalSkipEmptySourcesHeader, "true");
    }
  }

  /**
   * The headers of POST .../sources/{id}/check_availability: the pre-shared key always;
   * the account number exactly when the tenant is known; the org id exactly when it is
   * known; the skip-empty signal exactly when the flag is on. Nothing else.
   */
  method RecheckHeaders(psk: string, tenant: string, orgId: string, skipEmpty: bool) returns (h: Header)
    ensures h.Keys <= {PskHeader, AccountNumberHeader, OrgIdHeader, SkipEmptySourcesHeader}
    ensures PskHeader in h && h[PskHeader] == [psk]
    ensures AccountNumberHeader in h <==> tenant != ""
    ensures AccountNumberHeader in h ==> h[AccountNumberHeader] == [tenant]
    ensures OrgIdHeader in h <==> orgId != ""
    ensures OrgIdHeader in h ==> h[OrgIdHeader] == [orgId]
    ensures SkipEmptySourcesHeader in h <==> skipEmpty
    ensures SkipEmptySourcesHeader in h ==> h[SkipEmptySourcesHeader] == ["true"]
  {
    h := map[];
    h := h[PskHeader := [psk]];
    if tenant != "" {
      h := h[AccountNumberHeader := [tenant]];
    }
    if orgId != "" {
      h := h[OrgIdHeader := [orgId]];
    }
    if skipEmpty {
      h := h[SkipEmptySourcesHeader := ["true"]];
    }
  }
}
