/** Agreement of the credentials a Sentry request carries in its query, headers and envelope. */
module SentryAuth {
  import opened Prelude
  import opened Text
  import opened Identifiers
  import opened Paths
  import Dsn

  datatype Carrier = Carrier(projectRef: string, publicKey: string, source: string)

  datatype AuthError = Denied

  // What the envelope header says about a DSN, if it has one that names a URL.
  datatype EnvelopeDsn = NoDsn | BadDsn | GoodDsn(url: Dsn.Url)

  function CarrierFromDsn(u: Dsn.Url): Carrier {
    Carrier(Dsn.ParsedRef(u), Dsn.ParsedKey(u), "envelope:dsn")
  }

  function SourcesFromEnvelope(dsn: EnvelopeDsn): seq<Carrier> {
    match dsn
    case NoDsn => []
    case BadDsn => [Carrier("", "", "envelope:dsn:invalid")]
    case GoodDsn(u) => [CarrierFromDsn(u)]
  }

  predicate Complete(c: Carrier) {
    c.projectRef != "" && c.publicKey != ""
  }

  predicate SameCredentials(a: Carrier, b: Carrier) {
    a.projectRef == b.projectRef && a.publicKey == b.publicKey
  }

  predicate Agree(sources: seq<Carrier>) {
    && sources != []
    && forall i :: 0 <= i < |sources| ==> Complete(sources[i]) && SameCredentials(sources[0], sources[i])
  }

  /** Succeeds exactly when there is a source, every source has both parts and all agree; the
      answer is the first source. */
  method AgreeSentryAuthSources(sources: seq<Carrier>) returns (r: Result<Carrier, AuthError>)
    ensures r.Ok? <==> Agree(sources)
    ensures r.Ok? ==> r.value == sources[0]
  {
    var canonical := Carrier("", "", "");
    for i := 0 to |sources|
      invariant i == 0 ==> canonical == Carrier("", "", "")
      invariant i > 0 ==> canonical == sources[0]
      invariant forall j :: 0 <= j < i ==> Complete(sources[j]) && SameCredentials(sources[0], sources[j])
    {
      var source := sources[i];
      if source.projectRef == "" || source.publicKey == "" { return Err(Denied); }
      if canonical.projectRef == "" {
        canonical := source;
        continue;
      }
      if canonical.projectRef != source.projectRef || canonical.publicKey != source.publicKey {
        return Err(Denied);
      }
    }
    if canonical.projectRef == "" || canonical.publicKey == "" { return Err(Denied); }
    return Ok(canonical);
  }

  predicate Occurs(c: Carrier, list: seq<Carrier>) {
    exists j :: 0 <= j < |list| && SameCredentials(c, list[j])
  }

  // Every credential pair of one list occurs in the other.
  predicate Covers(a: seq<Carrier>, b: seq<Carrier>) {
    forall i :: 0 <= i < |a| ==> Occurs(a[i], b)
  }

  lemma AgreementCarriesOver(a: seq<Carrier>, b: seq<Carrier>)
    requires Covers(a, b) && Covers(b, a) && Agree(a)
    ensures Agree(b) && SameCredentials(a[0], b[0])
  {
    assert Occurs(a[0], b);
    forall i | 0 <= i < |b|
      ensures Complete(b[i]) && SameCredentials(a[0], b[i])
    {
      assert Occurs(b[i], a);
      var j :| 0 <= j < |a| && SameCredentials(b[i], a[j]);
      assert Complete(a[j]) && SameCredentials(a[0], a[j]);
    }
  }

  /** Neither the verdict nor the agreed ref and key depend on the order of the sources, on
      repetitions among them or on where each was found. */
  lemma AgreementIgnoresOrderAndRepetition(a: seq<Carrier>, b: seq<Carrier>)
    requires Covers(a, b) && Covers(b, a)
    ensures Agree(a) <==> Agree(b)
    ensures Agree(a) ==> SameCredentials(a[0], b[0])
  {
    if Agree(a) { AgreementCarriesOver(a, b); }
    if Agree(b) { AgreementCarriesOver(b, a); }
  }

  /** Rearranging a list in particular changes nothing. */
  lemma PermutedSourcesAgreeAlike(a: seq<Carrier>, b: seq<Carrier>)
    requires multiset(a) == multiset(b)
    ensures Agree(a) <==> Agree(b)
    ensures Agree(a) ==> SameCredentials(a[0], b[0])
  {
    PermutedCovers(a, b);
    PermutedCovers(b, a);
    AgreementIgnoresOrderAndRepetition(a, b);
  }

  lemma PermutedCovers(a: seq<Carrier>, b: seq<Carrier>)
    requires multiset(a) == multiset(b)
    ensures Covers(a, b)
  {
    forall i | 0 <= i < |a|
      ensures Occurs(a[i], b)
    {
      assert a[i] in multiset(a);
      assert a[i] in b;
      var j :| 0 <= j < |b| && b[j] == a[i];
      assert SameCredentials(a[i], b[j]);
    }
  }

  /** An envelope without a DSN adds nothing, and one with a DSN adds its ref and key. */
  lemma EnvelopeSources(sources: seq<Carrier>, u: Dsn.Url)
    ensures Agree(sources + SourcesFromEnvelope(NoDsn)) <==> Agree(sources)
    ensures |SourcesFromEnvelope(GoodDsn(u))| == 1
    ensures SourcesFromEnvelope(GoodDsn(u))[0].projectRef == Dsn.ParsedRef(u)
    ensures SourcesFromEnvelope(GoodDsn(u))[0].publicKey == TrimSpace(u.user)
  {
    assert sources + SourcesFromEnvelope(NoDsn) == sources;
  }

  /** Two complete carriers of one project whose keys are the same identifier still agree exactly
      when they spell it alike: the raw texts are compared. */
  lemma SameKeyAgreesByText(a: Carrier, b: Carrier)
    requires a.projectRef == b.projectRef != ""
    requires NormalizeUuid(a.publicKey).Ok? && NormalizeUuid(a.publicKey) == NormalizeUuid(b.publicKey)
    ensures Agree([a] + [b]) <==> a.publicKey == b.publicKey
  {
    PairAgrees(a, b);
  }

  /** An envelope whose DSN does not parse is denied, whatever else the request carries. */
  lemma BadEnvelopeIsDenied(sources: seq<Carrier>)
    ensures !Agree(sources + SourcesFromEnvelope(BadDsn))
  {
    var all := sources + SourcesFromEnvelope(BadDsn);
    assert !Complete(all[|sources|]);
  }

  /** A request that names a project and key, and repeats them in the DSN bootstrap printed, is
      admitted exactly when it writes the key without dashes. */
  lemma PrintedDsnAgreesExactly(publicPath: string, ref: string, publicKey: string, value: string,
                                headerKey: string, source: string)
    requires Component(ref) && TrimSpace(ref) == ref && NormalizeUuid(publicKey) == Ok(value)
    ensures Agree([Carrier(ref, headerKey, source)]
                  + SourcesFromEnvelope(GoodDsn(Dsn.BuildDsn(publicPath, ref, publicKey))))
            <==> headerKey == Without('-', TrimSpace(publicKey))
  {
    var dsn := Dsn.BuildDsn(publicPath, ref, publicKey);
    PrintedCarrier(publicPath, ref, publicKey, value);
    PairAgrees(Carrier(ref, headerKey, source), CarrierFromDsn(dsn));
    KeyIsNotEmpty(publicKey, value);
  }

  lemma PrintedCarrier(publicPath: string, ref: string, publicKey: string, value: string)
    requires Component(ref) && TrimSpace(ref) == ref && NormalizeUuid(publicKey) == Ok(value)
    ensures CarrierFromDsn(Dsn.BuildDsn(publicPath, ref, publicKey))
         == Carrier(ref, Without('-', TrimSpace(publicKey)), "envelope:dsn")
  {
    Dsn.RefComesBackTrimmed(publicPath, ref, publicKey);
    Dsn.UndashedKeyIsTrimmed(publicKey, value);
  }

  lemma PairAgrees(a: Carrier, b: Carrier)
    ensures Agree([a] + [b]) <==> Complete(a) && Complete(b) && SameCredentials(a, b)
  {
    var both := [a] + [b];
    assert both[0] == a && both[1] == b;
  }

  lemma KeyIsNotEmpty(publicKey: string, value: string)
    requires NormalizeUuid(publicKey) == Ok(value)
    ensures Without('-', TrimSpace(publicKey)) != ""
  {
    WithoutLowered(TrimSpace(publicKey));
  }
}
