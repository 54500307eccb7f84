/**
 Names of generated resources and public hostnames (ASCII strings).  Two files carry their own
 copy of the normaliser; only the Kubernetes one cuts its result at 45 characters.
 */
module DnsNames {
  import opened Ascii
  import opened Common

  predicate IsLabelChar(c: char) { IsAlnum(c) || c == '-' }

  predicate IsHex(c: char) { IsDigit(c) || 'a' <= c <= 'f' || 'A' <= c <= 'F' }

  // ---------------------------------------------------------------- the normaliser

  /** Every character outside [a-z0-9-] becomes a hyphen. */
  function Substitute(s: string): (r: string)
    ensures |r| == |s|
  {
    seq(|s|, i requires 0 <= i < |s| => if IsLabelChar(s[i]) then s[i] else '-')
  }

  function TrimLeft(s: string): string {
    if s != "" && s[0] == '-' then TrimLeft(s[1..]) else s
  }

  function TrimRight(s: string): string {
    if s != "" && s[|s| - 1] == '-' then TrimRight(s[..|s| - 1]) else s
  }

  /** Each run of two or more hyphens becomes one. */
  function Collapse(s: string): string {
    if |s| >= 2 && s[0] == '-' && s[1] == '-' then Collapse(s[1..])
    else if s == "" then ""
    else [s[0]] + Collapse(s[1..])
  }

  function Prefix(s: string, n: nat): string {
    if |s| <= n then s else s[..n]
  }

  /** `toDnsSafeName` of the routing file. */
  function RoutingSafeName(value: string): string {
    Collapse(TrimRight(TrimLeft(Substitute(Lower(value)))))
  }

  /** `toDnsSafeName` of the Kubernetes service. */
  function KubernetesSafeName(value: string): string {
    Prefix(Collapse(TrimRight(TrimLeft(Substitute(Lower(value))))), 45)
  }

  // ---------------------------------------------------------------- what it means

  /** The maximal runs of letters and digits. */
  function Words(s: string): (words: seq<string>)
    ensures s != "" && IsAlnum(s[0]) ==> words != []
  {
    if s == "" then []
    else
      var rest := Words(s[1..]);
      if !IsAlnum(s[0]) then rest
      else if |s| > 1 && IsAlnum(s[1]) then [[s[0]] + rest[0]] + rest[1..]
      else [[s[0]]] + rest
  }

  function JoinHyphen(words: seq<string>): string {
    if words == [] then ""
    else if |words| == 1 then words[0]
    else words[0] + "-" + JoinHyphen(words[1..])
  }

  /** Label characters only, no hyphen at either end, no two hyphens in a row. */
  predicate Tidy(s: string) {
    && TidyTail(s)
    && (s != "" ==> s[0] != '-')
  }

  predicate TidyTail(s: string) {
    && (forall i :: 0 <= i < |s| ==> IsLabelChar(s[i]))
    && (forall i :: 0 <= i < |s| - 1 ==> !(s[i] == '-' && s[i + 1] == '-'))
    && (s != "" ==> s[|s| - 1] != '-')
  }

  lemma {:induction false} WordsSubstitute(s: string)
    ensures Words(Substitute(s)) == Words(s)
  {
    if s != "" {
      WordsSubstitute(s[1..]);
      assert Substitute(s)[1..] == Substitute(s[1..]);
    }
  }

  lemma {:induction false} WordsTrimLeft(s: string)
    ensures Words(TrimLeft(s)) == Words(s)
  {
    if s != "" && s[0] == '-' { WordsTrimLeft(s[1..]); }
  }

  lemma {:induction false} WordsSnocHyphen(s: string)
    ensures Words(s + "-") == Words(s)
  {
    if s == "" {
      assert ("" + "-")[1..] == "";
    } else {
      WordsSnocHyphen(s[1..]);
      assert (s + "-")[1..] == s[1..] + "-";
    }
  }

  lemma {:induction false} WordsTrimRight(s: string)
    ensures Words(TrimRight(s)) == Words(s)
    decreases |s|
  {
    if s != "" && s[|s| - 1] == '-' {
      WordsTrimRight(s[..|s| - 1]);
      WordsSnocHyphen(s[..|s| - 1]);
      assert s == s[..|s| - 1] + "-";
    }
  }

  lemma {:induction false} CollapseHead(s: string)
    ensures Collapse(s) == "" <==> s == ""
    ensures s != "" ==> Collapse(s)[0] == s[0]
  {
    if |s| >= 2 && s[0] == '-' && s[1] == '-' { CollapseHead(s[1..]); }
  }

  lemma {:induction false} WordsCollapse(s: string)
    ensures Words(Collapse(s)) == Words(s)
  {
    if s != "" {
      WordsCollapse(s[1..]);
      CollapseHead(s[1..]);
      if !(|s| >= 2 && s[0] == '-' && s[1] == '-') {
        assert Collapse(s)[1..] == Collapse(s[1..]);
      }
    }
  }

  lemma {:induction false} CollapseTidies(s: string)
    requires forall i :: 0 <= i < |s| ==> IsLabelChar(s[i])
    requires s != "" ==> s[|s| - 1] != '-'
    ensures TidyTail(Collapse(s))
  {
    if s != "" {
      CollapseTidies(s[1..]);
      CollapseHead(s[1..]);
      if !(|s| >= 2 && s[0] == '-' && s[1] == '-') {
        var rest := Collapse(s[1..]);
        var r := Collapse(s);
        assert r == [s[0]] + rest;
        forall i | 0 <= i < |r| - 1 ensures !(r[i] == '-' && r[i + 1] == '-') {
          if i == 0 { assert rest[0] == s[1]; } else { assert r[i] == rest[i - 1] && r[i + 1] == rest[i]; }
        }
      }
    }
  }

  lemma {:induction false} TrimLeftShape(s: string)
    requires forall i :: 0 <= i < |s| ==> IsLabelChar(s[i])
    ensures forall i :: 0 <= i < |TrimLeft(s)| ==> IsLabelChar(TrimLeft(s)[i])
    ensures TrimLeft(s) != "" ==> TrimLeft(s)[0] != '-'
  {
    if s != "" && s[0] == '-' { TrimLeftShape(s[1..]); }
  }

  lemma {:induction false} TrimRightShape(s: string)
    requires forall i :: 0 <= i < |s| ==> IsLabelChar(s[i])
    requires s != "" ==> s[0] != '-'
    ensures forall i :: 0 <= i < |TrimRight(s)| ==> IsLabelChar(TrimRight(s)[i])
    ensures TrimRight(s) != "" ==> TrimRight(s)[0] != '-' && TrimRight(s)[|TrimRight(s)| - 1] != '-'
    decreases |s|
  {
    if s != "" && s[|s| - 1] == '-' { TrimRightShape(s[..|s| - 1]); }
  }

  lemma TidyRest(s: string)
    requires TidyTail(s) && s != ""
    ensures TidyTail(s[1..])
    ensures s[0] == '-' ==> s[1..] != "" && s[1] != '-'
  {
    assert forall i :: 0 <= i < |s[1..]| ==> s[1..][i] == s[i + 1];
  }

  /** One more letter in front lengthens the first word. */
  lemma JoinLonger(c: char, first: string, rest: seq<string>)
    ensures JoinHyphen([[c] + first] + rest) == [c] + JoinHyphen([first] + rest)
  {
    hide JoinHyphen;
    JoinCons([c] + first, rest);
    JoinCons(first, rest);
    Regroup([c], first, "-" + JoinHyphen(rest));
  }

  lemma Regroup(a: string, b: string, c: string)
    ensures a + b + c == a + (b + c)
  {
  }

  lemma JoinCons(word: string, rest: seq<string>)
    ensures JoinHyphen([word] + rest) == if rest == [] then word else word + ("-" + JoinHyphen(rest))
  {
    assert ([word] + rest)[1..] == rest;
  }

  /** What the string is, given its words. */
  predicate IsJoined(s: string) {
    && s == (if s != "" && s[0] == '-' then "-" else "") + JoinHyphen(Words(s))
    && (s != "" ==> Words(s) != [])
  }

  lemma HyphenJoined(s: string)
    requires s != "" && s[0] == '-' && s[1..] != "" && s[1] != '-' && IsJoined(s[1..])
    ensures IsJoined(s)
  {
    hide JoinHyphen;
    assert s == "-" + s[1..];
  }

  lemma LetterJoined(s: string)
    requires s != "" && IsAlnum(s[0]) && (|s| > 1 ==> IsLabelChar(s[1])) && IsJoined(s[1..])
    ensures IsJoined(s)
  {
    hide JoinHyphen;
    var words := Words(s[1..]);
    assert s == [s[0]] + s[1..];
    JoinCons([s[0]], words);
    if |s| > 1 && IsAlnum(s[1]) {
      assert words == [words[0]] + words[1..];
      JoinLonger(s[0], words[0], words[1..]);
    }
  }

  /** A tidy string is its words joined by single hyphens. */
  lemma {:induction false} TidyIsJoined(s: string)
    requires TidyTail(s)
    ensures IsJoined(s)
  {
    if s == "" {
      assert IsJoined("");
    } else {
      hide IsJoined;
      TidyRest(s);
      TidyIsJoined(s[1..]);
      if s[0] == '-' { HyphenJoined(s); } else { LetterJoined(s); }
    }
  }

  lemma NormaliserTidies(value: string)
    ensures Tidy(RoutingSafeName(value))
    ensures Words(RoutingSafeName(value)) == Words(Lower(value))
  {
    var a := Substitute(Lower(value));
    var b := TrimLeft(a);
    var c := TrimRight(b);
    TrimLeftShape(a);
    TrimRightShape(b);
    CollapseTidies(c);
    CollapseHead(c);
    WordsSubstitute(Lower(value));
    WordsTrimLeft(a);
    WordsTrimRight(b);
    WordsCollapse(c);
  }

  /** The regex pipeline computes the words of the lower-cased name joined by single hyphens. */
  lemma NormaliserJoinsWords(value: string)
    ensures RoutingSafeName(value) == JoinHyphen(Words(Lower(value)))
    ensures Tidy(RoutingSafeName(value))
  {
    NormaliserTidies(value);
    TidyIsJoined(RoutingSafeName(value));
  }

  lemma TidyLower(s: string)
    requires forall i :: 0 <= i < |s| ==> IsLabelChar(s[i])
    ensures Lower(s) == s
  {
  }

  /** Tidy names are exactly the fixed points of the normaliser. */
  lemma FixedIffTidy(s: string)
    ensures RoutingSafeName(s) == s <==> Tidy(s)
  {
    NormaliserJoinsWords(s);
    if Tidy(s) {
      TidyLower(s);
      TidyIsJoined(s);
    }
  }

  lemma RoutingIdempotent(value: string)
    ensures RoutingSafeName(RoutingSafeName(value)) == RoutingSafeName(value)
  {
    NormaliserJoinsWords(value);
    FixedIffTidy(RoutingSafeName(value));
  }

  /** The Kubernetes copy is idempotent except where its cut falls just after a hyphen. */
  lemma KubernetesIdempotentIff(value: string)
    ensures KubernetesSafeName(KubernetesSafeName(value)) == KubernetesSafeName(value) <==>
            !(|RoutingSafeName(value)| > 45 && RoutingSafeName(value)[44] == '-')
  {
    NormaliserJoinsWords(value);
    var full, cut := RoutingSafeName(value), KubernetesSafeName(value);
    assert forall i :: 0 <= i < |cut| ==> cut[i] == full[i];
    FixedIffTidy(cut);
    if |full| > 45 && full[44] == '-' {
      assert cut[|cut| - 1] == '-';
      TidyShrinks(cut);
      assert KubernetesSafeName(cut) == RoutingSafeName(cut);
    } else {
      assert Tidy(cut);
    }
  }

  lemma {:induction false} CollapseShrinks(s: string)
    ensures |Collapse(s)| <= |s|
  {
    if s != "" { CollapseShrinks(s[1..]); }
  }

  lemma {:induction false} TrimLeftShrinks(s: string)
    ensures |TrimLeft(s)| <= |s|
  {
    if s != "" && s[0] == '-' { TrimLeftShrinks(s[1..]); }
  }

  lemma {:induction false} TrimRightShrinks(s: string)
    ensures |TrimRight(s)| <= |s|
    decreases |s|
  {
    if s != "" && s[|s| - 1] == '-' { TrimRightShrinks(s[..|s| - 1]); }
  }

  lemma TidyShrinks(value: string)
    ensures |RoutingSafeName(value)| <= |value|
  {
    var a := Substitute(Lower(value));
    TrimLeftShrinks(a);
    TrimRightShrinks(TrimLeft(a));
    CollapseShrinks(TrimRight(TrimLeft(a)));
  }

  // ---------------------------------------------------------------- resource names

  datatype ResourceNames = ResourceNames(
    deployment: string,
    service: string,
    configMap: string,
    fileConfigMap: string,
    secret: string,
    secretFiles: string,
    httpRoute: string,
    httpRedirectRoute: string)

  function OrApp(s: string): string {
    if s == "" then "app" else s
  }

  function IdSegment(id: string): string {
    Lower(Prefix(id, 8))
  }

  function NamesFromBase(base: string): ResourceNames {
    ResourceNames(base, base + "-svc", base + "-env", base + "-files", base + "-secret",
                  base + "-secret-files", base + "-route", base + "-redirect")
  }

  function BuildResourceNames(appName: string, deploymentId: string): ResourceNames {
    NamesFromBase(OrApp(Prefix(KubernetesSafeName(appName), 32)) + "-" + IdSegment(deploymentId))
  }

  function BuildJobName(appName: string, buildId: string): string {
    OrApp(Prefix(KubernetesSafeName(appName), 32)) + "-build-" + IdSegment(buildId)
  }

  predicate IsUuid(id: string) {
    |id| == 36 &&
    forall i :: 0 <= i < 36 ==> if i in {8, 13, 18, 23} then id[i] == '-' else IsHex(id[i])
  }

  /** A host name label (section 2.1 of RFC 1123, section 2.3.4 of RFC 1035 for the length). */
  predicate IsLabel(s: string) {
    && 1 <= |s| <= 63
    && LabelShaped(s)
  }

  predicate LabelShaped(s: string) {
    && s != ""
    && (forall i :: 0 <= i < |s| ==> IsLabelChar(s[i]))
    && IsAlnum(s[0]) && IsAlnum(s[|s| - 1])
  }

  /** A label by the grammar of section 2.3.1 of RFC 1035, which must begin with a letter. */
  predicate IsStrictLabel(s: string) {
    IsLabel(s) && IsLetter(s[0])
  }

  lemma AppSegment(appName: string)
    ensures var seg := OrApp(Prefix(KubernetesSafeName(appName), 32));
            && seg == OrApp(Prefix(RoutingSafeName(appName), 32))
            && 1 <= |seg| <= 32
            && (forall i :: 0 <= i < |seg| ==> IsLabelChar(seg[i]))
            && IsAlnum(seg[0])
            && (Words(Lower(appName)) == [] ==> seg == "app")
            && (Words(Lower(appName)) != [] ==>
                  Words(Lower(appName))[0] != "" && seg[0] == Words(Lower(appName))[0][0])
  {
    NormaliserTidies(appName);
    var full := RoutingSafeName(appName);
    TidyIsJoined(full);
    assert Prefix(KubernetesSafeName(appName), 32) == Prefix(full, 32);
    if full != "" {
      WordsHead(full);
    }
  }

  lemma WordsHead(s: string)
    requires s != "" && IsAlnum(s[0])
    ensures Words(s)[0] != "" && Words(s)[0][0] == s[0]
  {
  }

  lemma IdSegmentShape(id: string)
    requires IsUuid(id)
    ensures |IdSegment(id)| == 8
    ensures forall i :: 0 <= i < 8 ==> IsAlnum(IdSegment(id)[i])
  {
  }

  /** `base` followed by a suffix of label characters that ends in a letter or digit. */
  lemma Suffixed(base: string, suffix: string)
    requires LabelShaped(base) && suffix != "" && |base| + |suffix| <= 63
    requires (forall i :: 0 <= i < |suffix| ==> IsLabelChar(suffix[i])) && IsAlnum(suffix[|suffix| - 1])
    ensures IsLabel(base + suffix) && (base + suffix)[0] == base[0]
  {
  }

  lemma BaseShape(appName: string, id: string)
    requires IsUuid(id)
    ensures var base := BuildResourceNames(appName, id).deployment;
            LabelShaped(base) && |base| <= 41 && base[0] == OrApp(Prefix(RoutingSafeName(appName), 32))[0]
  {
    AppSegment(appName);
    IdSegmentShape(id);
    var seg, tail := OrApp(Prefix(KubernetesSafeName(appName), 32)), IdSegment(id);
    var base := seg + "-" + tail;
    assert forall i :: 0 <= i < |base| ==> base[i] == if i < |seg| then seg[i] else if i == |seg| then '-' else tail[i - |seg| - 1];
  }

  lemma NamesFromBaseAreLabels(base: string)
    requires LabelShaped(base) && |base| <= 50
    ensures var n := NamesFromBase(base);
            && IsLabel(n.deployment) && IsLabel(n.service) && IsLabel(n.configMap) && IsLabel(n.fileConfigMap)
            && IsLabel(n.secret) && IsLabel(n.secretFiles) && IsLabel(n.httpRoute) && IsLabel(n.httpRedirectRoute)
            && n.service[0] == base[0]
  {
    Suffixed(base, "-svc");
    Suffixed(base, "-env");
    Suffixed(base, "-files");
    Suffixed(base, "-secret");
    Suffixed(base, "-secret-files");
    Suffixed(base, "-route");
    Suffixed(base, "-redirect");
  }

  /** Every generated resource name is a valid label, for every app name and UUID. */
  lemma ResourceNamesAreLabels(appName: string, id: string)
    requires IsUuid(id)
    ensures var n := BuildResourceNames(appName, id);
            && IsLabel(n.deployment) && IsLabel(n.service) && IsLabel(n.configMap) && IsLabel(n.fileConfigMap)
            && IsLabel(n.secret) && IsLabel(n.secretFiles) && IsLabel(n.httpRoute) && IsLabel(n.httpRedirectRoute)
  {
    BaseShape(appName, id);
    NamesFromBaseAreLabels(BuildResourceNames(appName, id).deployment);
  }

  /** So is every build Job name. */
  lemma JobNameIsLabel(appName: string, id: string)
    requires IsUuid(id)
    ensures IsLabel(BuildJobName(appName, id))
  {
    AppSegment(appName);
    IdSegmentShape(id);
    var seg, tail := OrApp(Prefix(KubernetesSafeName(appName), 32)), IdSegment(id);
    var job := BuildJobName(appName, id);
    assert forall i :: 0 <= i < |job| ==>
             job[i] == if i < |seg| then seg[i] else if i < |seg| + 7 then "-build-"[i - |seg|] else tail[i - |seg| - 7];
  }

  predicate StartsWithDigit(words: seq<string>) {
    words != [] && words[0] != "" && IsDigit(words[0][0])
  }

  /** The Service name meets the stricter grammar exactly when the app name's first word does not start with a digit. */
  lemma ServiceNameIsStrictIff(appName: string, id: string)
    requires IsUuid(id)
    ensures IsStrictLabel(BuildResourceNames(appName, id).service) <==>
            !StartsWithDigit(Words(Lower(appName)))
  {
    BaseShape(appName, id);
    NamesFromBaseAreLabels(BuildResourceNames(appName, id).deployment);
    AppSegment(appName);
  }

  /** The app's segment: the first 32 characters of its normalised name, or `app` when nothing is left of it. */
  function AppPart(appName: string): string {
    var name := RoutingSafeName(appName);
    if name == "" then "app" else if |name| > 32 then name[..32] else name
  }

  lemma BaseIs(appName: string, id: string)
    requires IsUuid(id)
    ensures BuildResourceNames(appName, id).deployment == AppPart(appName) + "-" + Lower(id[..8])
    ensures BuildJobName(appName, id) == AppPart(appName) + "-build-" + Lower(id[..8])
    ensures var n := BuildResourceNames(appName, id);
            && n.service == n.deployment + "-svc" && n.configMap == n.deployment + "-env"
            && n.fileConfigMap == n.deployment + "-files" && n.secret == n.deployment + "-secret"
            && n.secretFiles == n.deployment + "-secret-files"
            && n.httpRoute == n.deployment + "-route" && n.httpRedirectRoute == n.deployment + "-redirect"
  {
    AppPartIs(appName);
    hide KubernetesSafeName, AppPart, OrApp;
  }

  lemma AppPartIs(appName: string)
    ensures OrApp(Prefix(KubernetesSafeName(appName), 32)) == AppPart(appName)
  {
    AppSegment(appName);
    hide RoutingSafeName, KubernetesSafeName;
  }

  /** Two deployments share a base name exactly when their app segments and the first eight digits of their ids agree. */
  lemma SameBaseIff(app1: string, id1: string, app2: string, id2: string)
    requires IsUuid(id1) && IsUuid(id2)
    ensures BuildResourceNames(app1, id1).deployment == BuildResourceNames(app2, id2).deployment <==>
            AppPart(app1) == AppPart(app2) && Lower(id1[..8]) == Lower(id2[..8])
  {
    hide BuildResourceNames, AppPart;
    BaseIs(app1, id1);
    BaseIs(app2, id2);
    var s1, s2, t1, t2 := AppPart(app1), AppPart(app2), Lower(id1[..8]), Lower(id2[..8]);
    var b1, b2 := s1 + "-" + t1, s2 + "-" + t2;
    if b1 == b2 {
      assert |s1| == |s2|;
      assert b1[..|s1|] == s1 && b2[..|s1|] == s2;
      assert b1[|s1| + 1..] == t1 && b2[|s1| + 1..] == t2;
    }
  }

  // ---------------------------------------------------------------- public hostnames

  /** The text before the first dot, and the text after it. */
  function FirstLabel(s: string): string {
    if s == "" || s[0] == '.' then "" else [s[0]] + FirstLabel(s[1..])
  }

  function OtherLabels(s: string): string {
    if s == "" then "" else if s[0] == '.' then s[1..] else OtherLabels(s[1..])
  }

  /** One or more label-shaped parts separated by dots. */
  predicate IsDotted(s: string)
    decreases |s|
  {
    && LabelShaped(FirstLabel(s))
    && (FirstLabel(s) != s ==> |OtherLabels(s)| < |s| && IsDotted(OtherLabels(s)))
  }

  /** What the wildcard pattern accepts: `*.` and at least two label-shaped parts. */
  predicate IsWildcard(s: string) {
    && |s| > 2 && s[..2] == "*."
    && FirstLabel(s[2..]) != s[2..]
    && IsDotted(s[2..])
  }

  function BuildPublicHostname(appName: string, deploymentId: string, wildcardHostname: string): Result<string, string> {
    var wildcard := Lower(Trim(wildcardHostname));
    if !IsWildcard(wildcard) then Err("APPLICATION_WILDCARD_HOSTNAME must be a valid wildcard hostname")
    else
      Ok(OrApp(Prefix(RoutingSafeName(appName), 32)) + "-" + IdSegment(deploymentId) + "." + wildcard[2..])
  }

  lemma {:induction false} FirstLabelOf(first: string, rest: string)
    requires '.' !in first
    ensures FirstLabel(first + "." + rest) == first
    ensures OtherLabels(first + "." + rest) == rest
  {
    var s := first + "." + rest;
    if first == "" {
      assert s[1..] == rest;
    } else {
      FirstLabelOf(first[1..], rest);
      assert s[1..] == first[1..] + "." + rest;
    }
  }

  /** The public hostname is one label, the Kubernetes deployment name, below the wildcard's zone. */
  lemma HostnameIsBelowWildcard(appName: string, id: string, wildcardHostname: string)
    requires IsUuid(id)
    requires BuildPublicHostname(appName, id, wildcardHostname).Ok?
    ensures var host := BuildPublicHostname(appName, id, wildcardHostname).value;
            && FirstLabel(host) == BuildResourceNames(appName, id).deployment
            && IsLabel(FirstLabel(host))
            && "*." + OtherLabels(host) == Lower(Trim(wildcardHostname))
            && IsDotted(host)
  {
    AppSegment(appName);
    BaseShape(appName, id);
    var base := BuildResourceNames(appName, id).deployment;
    var wildcard := Lower(Trim(wildcardHostname));
    assert wildcard == "*." + wildcard[2..];
    FirstLabelOf(base, wildcard[2..]);
  }

  // ---------------------------------------------------------------- wildcards

  function JoinDots(labels: seq<string>): string {
    if labels == [] then ""
    else if |labels| == 1 then labels[0]
    else labels[0] + "." + JoinDots(labels[1..])
  }

  ghost predicate AllLabels(labels: seq<string>) {
    labels != [] && forall i :: 0 <= i < |labels| ==> LabelShaped(labels[i])
  }

  /** The part before the first dot, the dot, and the rest. */
  lemma {:induction false} FirstAndOthers(s: string)
    ensures FirstLabel(s) == s || s == FirstLabel(s) + "." + OtherLabels(s)
    ensures '.' !in FirstLabel(s)
  {
    if s != "" && s[0] != '.' {
      FirstAndOthers(s[1..]);
      assert s == [s[0]] + s[1..];
    } else if s != "" {
      assert s == "." + s[1..];
    }
  }

  lemma {:induction false} DottedHasLabels(s: string) returns (labels: seq<string>)
    requires IsDotted(s)
    ensures AllLabels(labels) && JoinDots(labels) == s && (|labels| == 1 <==> FirstLabel(s) == s)
    decreases |s|
  {
    FirstAndOthers(s);
    labels := [FirstLabel(s)];
    if FirstLabel(s) != s {
      hide LabelShaped;
      var others := DottedHasLabels(OtherLabels(s));
      assert (labels + others)[1..] == others;
      labels := labels + others;
    }
  }

  lemma {:induction false} LabelsAreDotted(labels: seq<string>)
    requires AllLabels(labels)
    ensures IsDotted(JoinDots(labels)) && (FirstLabel(JoinDots(labels)) == JoinDots(labels) <==> |labels| == 1)
  {
    NoDot(labels[0]);
    if |labels| == 1 {
      OneLabel(labels[0]);
    } else {
      LabelsAreDotted(labels[1..]);
      FirstLabelOf(labels[0], JoinDots(labels[1..]));
      hide LabelShaped, FirstLabel, OtherLabels;
    }
  }

  lemma NoDot(s: string)
    requires LabelShaped(s)
    ensures '.' !in s
  {
  }

  lemma {:induction false} OneLabel(s: string)
    requires '.' !in s
    ensures FirstLabel(s) == s
  {
    if s != "" { OneLabel(s[1..]); }
  }

  /** The wildcard pattern accepts exactly `*.` followed by two or more labels separated by dots. */
  lemma WildcardIff(s: string)
    ensures IsWildcard(s) <==>
            exists labels: seq<string> :: |labels| >= 2 && AllLabels(labels) && s == "*." + JoinDots(labels)
  {
    if IsWildcard(s) {
      var labels := DottedHasLabels(s[2..]);
      assert s == "*." + JoinDots(labels);
    }
    forall labels: seq<string> | |labels| >= 2 && AllLabels(labels) && s == "*." + JoinDots(labels) ensures IsWildcard(s) {
      LabelsAreDotted(labels);
      assert s[2..] == JoinDots(labels);
    }
  }

  /** A hostname is built exactly for such a wildcard, trimmed and in lower case. */
  lemma HostnameIffWildcard(appName: string, id: string, wildcardHostname: string)
    ensures BuildPublicHostname(appName, id, wildcardHostname).Ok? <==>
            exists labels: seq<string> ::
              |labels| >= 2 && AllLabels(labels) && Lower(Trim(wildcardHostname)) == "*." + JoinDots(labels)
  {
    WildcardIff(Lower(Trim(wildcardHostname)));
  }
}
