/** Helpers of the Bling API script: the expiry stamp and check of a saved
    token, the `Authorization` header, cleaning a manually pasted token or
    CPF, the two request URLs, and the name of a saved result file. */
module BlingClient {
  import opened Documents
  import opened Text

  // ---------------------------------------------------------------------------
  // Token expiry

  /** `int(v)` on a JSON value: an integer as is, a bool as 0 or 1, a string
      parsed as decimal text; anything else raises (None). */
  function IntOf(v: Value): Option<int> {
    match v
    case VInt(n) => Some(n)
    case VBool(b) => Some(if b then 1 else 0)
    case VStr(s) => ParseInt(s)
    case _ => None
  }

  /** `verificar_expiracao_token`: a token is expired when `data_expiracao`
      is set, truthy, reads as an integer, and lies before now. */
  function TokenExpired(token: Doc, now: int): bool {
    var e := Get(token, "data_expiracao");
    Truthy(e) &&
    match IntOf(e)
    case None => false
    case Some(x) => x < now
  }

  /** Once reported expired, a token stays expired. */
  lemma ExpiredStaysExpired(token: Doc, now: int, later: int)
    requires now <= later
    ensures TokenExpired(token, now) ==> TokenExpired(token, later)
  {
  }

  /** The `data_expiracao` rule of `salvar_token`: when `expires_in` is present
      and `data_expiracao` is not, set it to now plus `int(expires_in)`; a
      value `int` rejects raises out of the call. */
  function WithExpiry(token: Doc, now: int): (r: Outcome<Doc>)
    ensures r.Raised? <==> "expires_in" in token && "data_expiracao" !in token && IntOf(token["expires_in"]).None?
    ensures r.Returned? ==> forall k :: k != "data_expiracao" ==> (k in r.value <==> k in token)
    ensures r.Returned? ==> forall k :: k in token && k != "data_expiracao" ==> r.value[k] == token[k]
    ensures "data_expiracao" in token ==> r.Returned? && "data_expiracao" in r.value && r.value["data_expiracao"] == token["data_expiracao"]
    ensures r.Returned? ==> ("data_expiracao" in r.value <==> "data_expiracao" in token || "expires_in" in token)
    ensures r.Returned? && "data_expiracao" !in token && "expires_in" in token ==>
              "data_expiracao" in r.value && IntOf(r.value["data_expiracao"]) == Some(now + IntOf(token["expires_in"]).value)
  {
    if "expires_in" in token && "data_expiracao" !in token then
      match IntOf(token["expires_in"])
      case None => Raised
      case Some(e) => Returned(token["data_expiracao" := VInt(now + e)])
    else Returned(token)
  }

  /** Saving an already saved token again keeps its first stamp: a second
      `salvar_token`, at any later time, changes nothing. */
  lemma WithExpiryIdempotent(token: Doc, now: int, later: int)
    requires WithExpiry(token, now).Returned?
    ensures WithExpiry(WithExpiry(token, now).value, later) == WithExpiry(token, now)
  {
    var t := WithExpiry(token, now).value;
    assert "data_expiracao" in t || "expires_in" !in t;
  }

  /** A token stamped at `now` with a lifetime of `e` seconds is reported
      expired at time `t` exactly when `t` is past `now + e` (an expiry of 0
      is falsy and never reported). */
  lemma StampedTokenExpiresAfterLifetime(token: Doc, now: int, e: int, t: int)
    requires "expires_in" in token && "data_expiracao" !in token && IntOf(token["expires_in"]) == Some(e)
    requires now + e != 0
    ensures WithExpiry(token, now).Returned?
    ensures TokenExpired(WithExpiry(token, now).value, t) <==> now + e < t
  {
  }

  /** A token dictionary the script mutates in place. */
  class TokenData {
    var fields: Doc

    constructor (initial: Doc)
      ensures fields == initial
    {
      fields := initial;
    }

    /** The `data_expiracao` assignment of `salvar_token`, on the caller's
        dictionary. */
    method StampExpiry(now: int) returns (r: Outcome<()>)
      modifies this
      ensures r.Raised? <==> WithExpiry(old(fields), now).Raised?
      ensures r.Returned? ==> fields == WithExpiry(old(fields), now).value
      ensures r.Raised? ==> fields == old(fields)
    {
      if "expires_in" in fields && "data_expiracao" !in fields {
        var e := IntOf(fields["expires_in"]);
        if e.None? {
          return Raised;
        }
        fields := fields["data_expiracao" := VInt(now + e.value)];
      }
      r := Returned(());
    }
  }

  // ---------------------------------------------------------------------------
  // The Authorization header

  const BearerPrefix := "Bearer "

  /** The header value: the token, with `Bearer ` put in front unless it
      already starts with exactly that text. */
  function AuthorizationHeader(token: string): (r: string)
    ensures StartsWith(r, BearerPrefix)
    ensures StartsWith(token, BearerPrefix) ==> r == token
    ensures !StartsWith(token, BearerPrefix) ==> r[|BearerPrefix|..] == token
  {
    if StartsWith(token, BearerPrefix) then token else BearerPrefix + token
  }

  /** Prefixing is idempotent. */
  lemma AuthorizationHeaderIdempotent(token: string)
    ensures AuthorizationHeader(AuthorizationHeader(token)) == AuthorizationHeader(token)
  {
  }

  /** A pasted token as `obter_token_manual` cleans it: surrounding whitespace
      removed, empty input refused (None), and a leading `bearer ` in any case
      cut off with the whitespace after it. */
  function NormalizeManualToken(raw: string): (r: Option<string>)
    ensures r.None? <==> Strip(raw) == ""
    ensures r.Some? ==> Trimmed(r.value)
    ensures r.Some? && !LowerStartsWith(Strip(raw), "bearer ") ==> r.value == Strip(raw)
  {
    var t := Strip(raw);
    if t == "" then None
    else if LowerStartsWith(t, "bearer ") then Some(Strip(t[7..]))
    else Some(t)
  }

  /** Pasting back a header built from a clean token gives the token. */
  lemma ManualTokenUndoesHeader(token: string)
    requires token != "" && Trimmed(token) && !StartsWith(token, BearerPrefix)
    ensures NormalizeManualToken(AuthorizationHeader(token)) == Some(token)
  {
    var h := BearerPrefix + token;
    assert AuthorizationHeader(token) == h;
    HeaderIsTrimmed(token);
    HeaderStartsWithBearer(token);
    assert h[7..] == token;
    NormalizeBearerHeader(h, token);
  }

  /** A trimmed value that starts with `bearer ` normalises to what follows
      the prefix, when that is trimmed already. */
  lemma NormalizeBearerHeader(h: string, token: string)
    requires h != "" && Trimmed(h) && LowerStartsWith(h, "bearer ")
    requires |h| >= 7 && h[7..] == token && Trimmed(token)
    ensures NormalizeManualToken(h) == Some(token)
  {
    assert Strip(h) == h;
  }

  /** A pasted `Bearer` header in any letter case, with any whitespace around
      it and after the prefix, normalises to the bare token. */
  lemma NormalizeBearerInput(lead: string, p: string, w: string, token: string, trail: string)
    requires |p| == 7 && forall i :: 0 <= i < 7 ==> LowerAscii(p[i]) == "bearer "[i]
    requires AllSpace(lead) && AllSpace(w) && AllSpace(trail)
    requires token != "" && Trimmed(token)
    ensures NormalizeManualToken(lead + p + w + token + trail) == Some(token)
  {
    var core := p + w + token;
    BearerCore(p, w, token);
    assert lead + p + w + token + trail == lead + core + trail;
    StripSpaces(lead, core, trail);
    assert w + token + [] == w + token;
    StripSpaces(w, token, []);
    NormalizeStrippedBearer(lead + core + trail, core, w + token, token);
  }

  lemma BearerCore(p: string, w: string, token: string)
    requires |p| == 7 && forall i :: 0 <= i < 7 ==> LowerAscii(p[i]) == "bearer "[i]
    requires token != "" && Trimmed(token)
    ensures var core := p + w + token;
            core != [] && Trimmed(core) && LowerStartsWith(core, "bearer ") && core[7..] == w + token
  {
    var core := p + w + token;
    assert core[0] == p[0] && !IsSpace(p[0]);
    assert core[|core| - 1] == token[|token| - 1];
    forall i | 0 <= i < 7
      ensures LowerAscii(core[i]) == "bearer "[i]
    {
      assert core[i] == p[i];
    }
  }

  lemma NormalizeStrippedBearer(raw: string, h: string, rest: string, token: string)
    requires Strip(raw) == h && h != "" && LowerStartsWith(h, "bearer ")
    requires |h| >= 7 && h[7..] == rest && Strip(rest) == token
    ensures NormalizeManualToken(raw) == Some(token)
  {
  }

  lemma HeaderIsTrimmed(token: string)
    requires token != "" && Trimmed(token)
    ensures Trimmed(BearerPrefix + token)
  {
    var h := BearerPrefix + token;
    assert h[0] == 'B' && h[|h| - 1] == token[|token| - 1];
  }

  lemma HeaderStartsWithBearer(token: string)
    ensures LowerStartsWith(BearerPrefix + token, "bearer ")
  {
    var h := BearerPrefix + token;
    forall i | 0 <= i < 7
      ensures LowerAscii(h[i]) == "bearer "[i]
    {
      assert h[i] == BearerPrefix[i];
    }
  }

  // ---------------------------------------------------------------------------
  // CPF cleanup

  predicate Punctuation(c: char) {
    c == '.' || c == '-' || c == '/'
  }

  /** The characters of `s` that are not `.`, `-` or `/`, in order. */
  function DropPunctuation(s: string): (r: string)
    ensures forall i :: 0 <= i < |r| ==> !Punctuation(r[i])
  {
    if s == [] then [] else (if Punctuation(s[0]) then [] else [s[0]]) + DropPunctuation(s[1..])
  }

  /** `cpf.replace('.', '').replace('-', '').replace('/', '')`. */
  function CleanCpf(s: string): string {
    RemoveChar(RemoveChar(RemoveChar(s, '.'), '-'), '/')
  }

  /** The three replacements keep exactly the characters that are not
      punctuation, in their order. */
  lemma {:induction false} CleanCpfDropsPunctuation(s: string)
    ensures CleanCpf(s) == DropPunctuation(s)
  {
    if s != [] {
      var c := s[0];
      assert s == [c] + s[1..];
      RemoveCharAppend([c], s[1..], '.');
      var a := RemoveChar([c], '.');
      RemoveCharAppend(a, RemoveChar(s[1..], '.'), '-');
      var b := RemoveChar(a, '-');
      RemoveCharAppend(b, RemoveChar(RemoveChar(s[1..], '.'), '-'), '/');
      assert RemoveChar(b, '/') == if Punctuation(c) then [] else [c];
      CleanCpfDropsPunctuation(s[1..]);
    }
  }

  /** A CPF typed as digits only is left as it is. */
  lemma {:induction false} CleanCpfKeepsDigits(s: string)
    requires AllDigits(s)
    ensures CleanCpf(s) == s
  {
    CleanCpfDropsPunctuation(s);
    DropPunctuationKeepsOthers(s);
  }

  lemma {:induction false} DropPunctuationKeepsOthers(s: string)
    requires forall i :: 0 <= i < |s| ==> !Punctuation(s[i])
    ensures DropPunctuation(s) == s
  {
    if s != [] {
      DropPunctuationKeepsOthers(s[1..]);
    }
  }

  /** The CPF as the script reads it: stripped input, refused when empty, then
      cleaned of punctuation. */
  function CpfFromInput(raw: string): (r: Option<string>)
    ensures r.None? <==> Strip(raw) == ""
    ensures r.Some? ==> r.value == DropPunctuation(Strip(raw))
  {
    var t := Strip(raw);
    if t == "" then None
    else
      CleanCpfDropsPunctuation(t);
      Some(CleanCpf(t))
  }

  // ---------------------------------------------------------------------------
  // Requests

  /** A GET request: the URL and its `Authorization` header (the `Accept` and
      `Content-Type` headers are the constant `application/json`). */
  datatype Request = Request(url: string, authorization: string)

  const ContactsUrl := "https://api.bling.com.br/Api/v3/contatos?numeroDocumento="
  const ReceivablesUrl := "https://api.bling.com.br/Api/v3/contas/receber?idContato="
  const SituationFilter := "&situacoes[]="

  /** The request of `buscar_contato_por_cpf`. */
  function ContactRequest(token: string, cpf: string): Request {
    Request(ContactsUrl + cpf, AuthorizationHeader(token))
  }

  /** The contact lookup built from typed input queries the stripped input
      with its punctuation removed: the query value holds no `.`, `-` or `/`. */
  lemma ContactQueryFromInput(token: string, raw: string)
    ensures CpfFromInput(raw).Some? ==>
              var url := ContactRequest(token, CpfFromInput(raw).value).url;
              |ContactsUrl| <= |url| && url[|ContactsUrl|..] == DropPunctuation(Strip(raw))
              && forall i :: |ContactsUrl| <= i < |url| ==> !Punctuation(url[i])
  {
    var c := CpfFromInput(raw);
    if c.Some? {
      ContactQueryValue(token, c.value);
    }
  }

  lemma ContactQueryValue(token: string, q: string)
    requires forall i :: 0 <= i < |q| ==> !Punctuation(q[i])
    ensures var url := ContactRequest(token, q).url;
            |ContactsUrl| <= |url| && url[|ContactsUrl|..] == q
            && forall i :: |ContactsUrl| <= i < |url| ==> !Punctuation(url[i])
  {
    var url := ContactRequest(token, q).url;
    assert url == ContactsUrl + q;
    assert forall i :: |ContactsUrl| <= i < |url| ==> url[i] == q[i - |ContactsUrl|];
  }

  /** A contact id as the script passes it: an integer from the JSON reply or
      text. */
  datatype ContactId = IdNum(n: int) | IdText(s: string)

  /** `str(id_contato)` */
  function ContactIdText(id: ContactId): string {
    match id
    case IdNum(n) => DecimalString(n)
    case IdText(s) => s
  }

  /** The request of `buscar_contas_a_receber_por_contato`; the situation
      filter is added only when `situacao` is given and non-empty. */
  function ReceivablesRequest(token: string, id: ContactId, situacao: Option<string>): Request {
    var base := ReceivablesUrl + ContactIdText(id);
    var url := if situacao.Some? && situacao.value != "" then base + SituationFilter + situacao.value else base;
    Request(url, AuthorizationHeader(token))
  }

  /** With a numeric contact id, the situation filter occurs in the query
      after `idContato=` exactly when a non-empty situation is given; the
      first `&` there ends the id and starts the filter, and the situation
      follows as given. */
  lemma ReceivablesFilterReadsBack(token: string, n: int, situacao: Option<string>)
    ensures var url := ReceivablesRequest(token, IdNum(n), situacao).url;
            |ReceivablesUrl| <= |url|
            && (Occurs(url[|ReceivablesUrl|..], SituationFilter) <==> situacao.Some? && situacao.value != "")
    ensures situacao.Some? && situacao.value != "" ==>
              var q := ReceivablesRequest(token, IdNum(n), situacao).url[|ReceivablesUrl|..];
              var k := IndexOf(q, '&');
              k.Some? && ParseInt(q[..k.value]) == Some(n) && StartsWith(q[k.value..], SituationFilter)
              && q[k.value + |SituationFilter|..] == situacao.value
  {
    var id := DecimalString(n);
    var url := ReceivablesRequest(token, IdNum(n), situacao).url;
    assert forall j :: 0 <= j < |id| ==> id[j] != '&';
    ParseIntDecimalString(n);
    if situacao.Some? && situacao.value != "" {
      assert url[|ReceivablesUrl|..] == id + SituationFilter + situacao.value;
      FilterFoundAfter(id, situacao.value);
    } else {
      assert url[|ReceivablesUrl|..] == id;
      FilterAbsent(id);
    }
  }

  lemma FilterFoundAfter(base: string, v: string)
    requires forall j :: 0 <= j < |base| ==> base[j] != '&'
    ensures var url := base + SituationFilter + v;
            Occurs(url, SituationFilter) && IndexOf(url, '&') == Some(|base|) && url[..|base|] == base
            && StartsWith(url[|base|..], SituationFilter) && url[|base| + |SituationFilter|..] == v
  {
    var url := base + SituationFilter + v;
    assert url[|base|..] == SituationFilter + v;
    assert StartsWith(url[|base|..], SituationFilter);
    assert url[|base|] == '&';
    var k := IndexOf(url, '&');
    assert forall j :: 0 <= j < |base| ==> url[j] == base[j];
    assert k.Some? && k.value <= |base|;
    assert url[k.value] == '&';
    assert k.value == |base|;
    assert url[..|base|] == base;
  }

  lemma FilterAbsent(base: string)
    requires forall j :: 0 <= j < |base| ==> base[j] != '&'
    ensures !Occurs(base, SituationFilter)
  {
    forall i | 0 <= i <= |base|
      ensures !StartsWith(base[i..], SituationFilter)
    {
      if i < |base| {
        assert base[i..][0] == base[i];
      }
    }
  }

  /** Without a filter, the query value of the receivables URL reads back as
      the numeric contact id. */
  lemma ReceivablesUrlCarriesId(token: string, n: int)
    ensures var url := ReceivablesRequest(token, IdNum(n), None).url;
            |ReceivablesUrl| <= |url| && ParseInt(url[|ReceivablesUrl|..]) == Some(n)
  {
    var url := ReceivablesRequest(token, IdNum(n), None).url;
    assert url[|ReceivablesUrl|..] == DecimalString(n);
    ParseIntDecimalString(n);
  }

  // ---------------------------------------------------------------------------
  // Result file names

  /** `name.rsplit('.', 1)[0]`: the text before the last dot, or all of it. */
  function BaseName(name: string): string {
    match LastIndexOf(name, '.')
    case None => name
    case Some(k) => name[..k]
  }

  /** The text after the last dot, or `json` when there is no dot. */
  function Extension(name: string): (r: string)
    ensures '.' !in r
  {
    match LastIndexOf(name, '.')
    case None => "json"
    case Some(k) => name[k + 1..]
  }

  /** The file name `salvar_resultado` writes: base, `_`, timestamp, `.`,
      extension. */
  function ResultFileName(name: string, timestamp: string): string {
    BaseName(name) + "_" + timestamp + "." + Extension(name)
  }

  /** The last `c` of `a + [c] + b` is the one between them when `b` has none. */
  lemma {:induction false} LastIndexOfJoin(a: string, c: char, b: string)
    requires c !in b
    ensures LastIndexOf(a + [c] + b, c) == Some(|a|)
  {
    var s := a + [c] + b;
    if b == [] {
      assert s[|s| - 1] == c;
    } else {
      var init := b[..|b| - 1];
      assert s[..|s| - 1] == a + [c] + init;
      assert s[|s| - 1] == b[|b| - 1];
      assert c !in init by {
        assert forall i :: 0 <= i < |init| ==> init[i] == b[i];
      }
      LastIndexOfJoin(a, c, init);
    }
  }

  /** Splitting the written name at its last dot gives back the extension and
      the base followed by the timestamp: a name without a dot gets `.json`. */
  lemma ResultFileNameSplits(name: string, timestamp: string)
    ensures Extension(ResultFileName(name, timestamp)) == Extension(name)
    ensures BaseName(ResultFileName(name, timestamp)) == BaseName(name) + "_" + timestamp
    ensures '.' !in name ==> Extension(ResultFileName(name, timestamp)) == "json"
  {
    var a := BaseName(name) + "_" + timestamp;
    var e := Extension(name);
    assert ResultFileName(name, timestamp) == a + ['.'] + e;
    LastIndexOfJoin(a, '.', e);
    assert (a + ['.'] + e)[|a| + 1..] == e;
    assert (a + ['.'] + e)[..|a|] == a;
  }
}
