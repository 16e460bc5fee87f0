/** Finding an image on the peers: the newest one on one of them, and one peer after the other in random order. */
module PeerSearch {
  import opened Text
  import opened ImageNames

  /******* the newest image of one peer *******/

  /** The target in the name of an image made for the given version; the pattern's dots match any character. */
  function TargetIn(name: string, current: nat): Option<nat> {
    var text := IntText(current);
    if Framed(name) && |name| > |text| + 18 && name[10..10 + |text|] == text && Dot(name[10 + |text|])
       && IsDecimal(name[11 + |text|..|name| - 7])
    then ParseDigits(name[11 + |text|..|name| - 7], 10)
    else None
  }

  lemma ImageNameHasTarget(current: nat, target: nat)
    ensures TargetIn(ImageName(current, target), current) == Some(target)
  {
    hide IntText, Numeral, ParseDigits;
    NameParts(current, target);
    NumeralIsDecimal(target);
    TextIsNumeral(target);
    ParseNumeral(target, 10);
  }

  lemma TextIsNumeral(n: nat)
    ensures IntText(n) == Numeral(n, 10) != ""
  {
  }

  lemma NameParts(current: nat, target: nat)
    ensures var name, text := ImageName(current, target), IntText(current);
            && Framed(name) && |name| > |text| + 18 && name[10..10 + |text|] == text && name[10 + |text|] == '.'
            && name[11 + |text|..|name| - 7] == IntText(target)
  {
    var a, b := IntText(current), IntText(target);
    var name := ImageName(current, target);
    NumeralIsDecimal(target);
    assert name[..9] == IMAGE_PREFIX && name[|name| - 7..] == IMAGE_EXT;
    assert name[|name| - 6..|name| - 3] == IMAGE_EXT[1..4] == "tar" && name[|name| - 2..] == IMAGE_EXT[5..] == "gz";
    assert name[10..10 + |a|] == a && name[10 + |a|] == '.';
    assert name[11 + |a|..|name| - 7] == b;
    assert |b| > 0;
  }

  ghost predicate Offers(listing: seq<string>, current: nat, target: nat) {
    exists i :: 0 <= i < |listing| && TargetIn(listing[i], current) == Some(target)
  }

  /** The greatest target offered. */
  ghost predicate Newest(listing: seq<string>, current: nat, m: nat) {
    Offers(listing, current, m) && forall t: nat :: Offers(listing, current, t) ==> t <= m
  }

  method GetNewestImageName(listing: seq<string>, current: nat) returns (r: Option<string>)
    ensures r == None <==> forall t: nat :: !Offers(listing, current, t)
    ensures r.Some? ==> exists m: nat :: r.value == ImageName(current, m) && Newest(listing, current, m)
  {
    hide TargetIn, ImageName;
    var maxTarget: int := -1;
    for i := 0 to |listing|
      invariant maxTarget >= -1
      invariant maxTarget >= 0 ==> Offers(listing, current, maxTarget)
      invariant forall k :: 0 <= k < i && TargetIn(listing[k], current).Some? ==>
                    TargetIn(listing[k], current).value <= maxTarget
    {
      var target := TargetIn(listing[i], current);
      if target.Some? && target.value > maxTarget {
        maxTarget := target.value;
      }
    }
    if maxTarget < 0 {
      return None;
    }
    r := Some(ImageName(current, maxTarget));
  }

  /** Dots where the pattern's dots are, and a target without a leading zero. */
  predicate AsWrittenFor(name: string, current: nat)
    requires TargetIn(name, current).Some?
  {
    var k := 10 + |IntText(current)|;
    && name[9] == '.' && name[k] == '.' && name[|name| - 7] == '.' && name[|name| - 3] == '.'
    && NoLeadingZero(name[k + 1..|name| - 7])
  }

  /** A matching name is the name of the image exactly when it is written as the server writes names. */
  lemma MatchIsNameExact(name: string, current: nat, m: nat)
    requires TargetIn(name, current) == Some(m)
    ensures name == ImageName(current, m) <==> AsWrittenFor(name, current)
  {
    hide IntText, Numeral, ParseDigits, NoLeadingZero, IsDecimal, ImageName;
    var a := IntText(current);
    var b := name[11 + |a|..|name| - 7];
    TextIsNumeral(current);
    TextIsNumeral(m);
    NumeralIsUnique(b, m);
    NameParts(current, m);
    MatchedParts(name, current);
    if b == Numeral(m, 10) {
      DotsDecide(name, a, b, current, m);
    }
  }

  lemma MatchedParts(name: string, current: nat)
    requires TargetIn(name, current).Some?
    ensures var a := IntText(current); var b := name[11 + |a|..|name| - 7];
            && Framed(name) && |a| + 1 + |b| == |name| - 17 && b != "" && a == name[10..10 + |a|]
            && name == IMAGE_PREFIX + [name[9]] + a + [name[10 + |a|]] + b + [name[|name| - 7]] + "tar"
                + [name[|name| - 3]] + "gz"
  {
    hide IntText, ParseDigits, IsDecimal;
    var a := IntText(current);
    var b := name[11 + |a|..|name| - 7];
    assert name[10..|name| - 7] == a + [name[10 + |a|]] + b;
    NameOf(name, a, b);
  }

  /** The name found is on the peer exactly when one of the names that offer its target is written as the server
      writes names. */
  lemma NewestIsThereExact(listing: seq<string>, current: nat, m: nat)
    ensures ImageName(current, m) in listing <==>
            exists i :: 0 <= i < |listing| && TargetIn(listing[i], current) == Some(m)
              && AsWrittenFor(listing[i], current)
  {
    hide TargetIn, ImageName, AsWrittenFor;
    ImageNameHasTarget(current, m);
    forall i | 0 <= i < |listing| && TargetIn(listing[i], current) == Some(m)
      ensures listing[i] == ImageName(current, m) <==> AsWrittenFor(listing[i], current)
    {
      MatchIsNameExact(listing[i], current, m);
    }
  }

  /******* one peer *******/

  /** The errors the downloader turns into its own, and any other. */
  datatype PeerError = Authentication | NotFound | Ssh | Uncaught(what: string)

  /** What a peer answers: the names in its directory, with the error of fetching those that cannot be fetched; or the
      error of connecting or listing. */
  datatype Answer = Listing(names: seq<string>, faults: map<string, PeerError>) | Unanswered(error: PeerError)

  datatype Peer = Peer(protocol: string, answer: Answer)

  /** What one download comes to; `Raised` is an error that the search does not catch. */
  datatype Attempt = Got(name: string) | NoImage | Failed | Raised(error: PeerError)

  /** An error, once it is caught or not. */
  function AfterError(error: PeerError): Attempt {
    if error.Uncaught? then Raised(error) else Failed
  }

  /** Fetching a name that is not there fails with "no such file". */
  function Fetched(names: seq<string>, faults: map<string, PeerError>, name: string): Attempt {
    if name !in names then AfterError(NotFound) else if name in faults then AfterError(faults[name]) else Got(name)
  }

  /** A download asks for the newest image the peer offers. */
  ghost predicate ComesTo(peer: Peer, current: nat, a: Attempt) {
    match peer.answer
    case Unanswered(error) => a == AfterError(error)
    case Listing(names, faults) =>
      if a.NoImage? then forall t: nat :: !Offers(names, current, t)
      else exists m: nat :: Newest(names, current, m) && a == Fetched(names, faults, ImageName(current, m))
  }

  /** A download comes to one thing only. */
  lemma OneOutcome(peer: Peer, current: nat, a: Attempt, b: Attempt)
    requires ComesTo(peer, current, a) && ComesTo(peer, current, b)
    ensures a == b
  {
    hide Offers, ImageName;
  }

  /** A peer that cannot be reached, or the image of which cannot be fetched, is passed over exactly if the error is
      that of authentication, of a missing file or of SSH. */
  lemma CaughtIsPassedOver(protocol: string, names: seq<string>, faults: map<string, PeerError>, current: nat, m: nat,
                           e: PeerError)
    ensures ComesTo(Peer(protocol, Unanswered(e)), current, Failed) <==> e in [Authentication, NotFound, Ssh]
    ensures Newest(names, current, m) && ImageName(current, m) in names && ImageName(current, m) in faults ==>
              (ComesTo(Peer(protocol, Listing(names, faults)), current, Failed) <==>
                 faults[ImageName(current, m)] in [Authentication, NotFound, Ssh])
  {
    hide Offers, ImageName;
  }

  method Download(peer: Peer, current: nat) returns (a: Attempt)
    ensures ComesTo(peer, current, a)
  {
    hide Offers, ImageName;
    match peer.answer {
      case Unanswered(error) => return AfterError(error);
      case Listing(names, faults) =>
        var name := GetNewestImageName(names, current);
        if name == None {
          return NoImage;
        }
        a := Fetched(names, faults, name.value);
    }
  }

  /** A name with a leading zero matches too, and makes the client ask for a file the peer does not have: such a peer
      is passed over. */
  lemma LeadingZeroMisleads()
    ensures Offers(["myscm-img.0.05.tar.gz"], 0, 5)
    ensures ImageName(0, 5) !in ["myscm-img.0.05.tar.gz"]
    ensures forall protocol, faults ::
              ComesTo(Peer(protocol, Listing(["myscm-img.0.05.tar.gz"], faults)), 0, Failed)
  {
    var name := "myscm-img.0.05.tar.gz";
    assert IntText(0) == "0" && IntText(5) == "5";
    assert name[..9] == IMAGE_PREFIX && name[15..18] == "tar" && name[19..] == "gz";
    assert name[10..11] == "0" && name[12..14] == "05";
    assert "05"[..1] == "0" && "0"[..0] == "";
    assert ParseDigits("0", 10) == Some(0);
    assert ParseDigits("05", 10) == Some(5);
    assert TargetIn(name, 0) == Some(5);
    var listing := [name];
    assert TargetIn(listing[0], 0) == Some(5);
    assert |ImageName(0, 5)| == 20 && |name| == 21;
  }

  /******* one peer after the other *******/

  const SUPPORTED_PROTOCOL := "SFTP"

  datatype SearchError = NoPeers | Unsupported | RaisedBy(host: string, error: PeerError)

  function Eligible(peers: map<string, Peer>, protocol: string): map<string, Peer> {
    map h | h in peers && peers[h].protocol == protocol :: peers[h]
  }

  /** The peer is passed over. */
  ghost predicate Useless(peer: Peer, current: nat) {
    ComesTo(peer, current, NoImage) || ComesTo(peer, current, Failed)
  }

  lemma EndsOrUseless(peer: Peer, current: nat, a: Attempt)
    requires ComesTo(peer, current, a)
    ensures Useless(peer, current) <==> !a.Got? && !a.Raised?
  {
    hide ComesTo;
    if ComesTo(peer, current, NoImage) {
      OneOutcome(peer, current, a, NoImage);
    }
    if ComesTo(peer, current, Failed) {
      OneOutcome(peer, current, a, Failed);
    }
  }

  /** Peers of the map, none drawn twice. */
  ghost predicate Drawn(hosts: seq<string>, peers: map<string, Peer>) {
    && (forall i :: 0 <= i < |hosts| ==> hosts[i] in peers)
    && (forall i, j :: 0 <= i < j < |hosts| ==> hosts[i] != hosts[j])
  }

  ghost predicate AllUseless(hosts: seq<string>, peers: map<string, Peer>, current: nat) {
    forall i :: 0 <= i < |hosts| ==> hosts[i] in peers && Useless(peers[hosts[i]], current)
  }

  /** The peer drawn last came to this, all before it to nothing. */
  ghost predicate EndedWith(hosts: seq<string>, peers: map<string, Peer>, current: nat, a: Attempt) {
    && hosts != [] && AllUseless(hosts[..|hosts| - 1], peers, current)
    && hosts[|hosts| - 1] in peers && ComesTo(peers[hosts[|hosts| - 1]], current, a)
  }

  lemma DrawOne(hosts: seq<string>, peers: map<string, Peer>, host: string)
    requires Drawn(hosts, peers) && host in peers && host !in hosts
    ensures Drawn(hosts + [host], peers)
  {
  }

  lemma DrawnFit(hosts: seq<string>, peers: map<string, Peer>)
    requires Drawn(hosts, peers)
    ensures |hosts| <= |peers|
  {
    var drawn := set i | 0 <= i < |hosts| :: hosts[i];
    DrawnCount(hosts, peers);
    assert peers.Keys == drawn + (peers.Keys - drawn);
  }

  lemma {:induction false} DrawnCount(hosts: seq<string>, peers: map<string, Peer>)
    requires Drawn(hosts, peers)
    ensures |set i | 0 <= i < |hosts| :: hosts[i]| == |hosts|
  {
    if hosts != [] {
      var init, last := hosts[..|hosts| - 1], hosts[|hosts| - 1];
      DrawnCount(init, peers);
      assert (set i | 0 <= i < |hosts| :: hosts[i]) == (set i | 0 <= i < |init| :: init[i]) + {last};
    }
  }

  lemma UselessOne(hosts: seq<string>, peers: map<string, Peer>, current: nat, host: string)
    requires AllUseless(hosts, peers, current) && host in peers && Useless(peers[host], current)
    ensures AllUseless(hosts + [host], peers, current)
  {
    hide Useless;
  }

  lemma LastEnds(hosts: seq<string>, peers: map<string, Peer>, current: nat, host: string, a: Attempt)
    requires AllUseless(hosts, peers, current) && host in peers && ComesTo(peers[host], current, a)
    ensures EndedWith(hosts + [host], peers, current, a)
  {
    hide AllUseless, ComesTo;
    assert (hosts + [host])[..|hosts|] == hosts;
  }

  /** Two peers, one that does not let its directory be listed and one with the image: drawn first, the former ends the
      search. */
  lemma UncaughtErrorEndsSearch() returns (peers: map<string, Peer>, e: PeerError)
    ensures peers.Keys == {"p", "q"} && Eligible(peers, SUPPORTED_PROTOCOL) == peers
    ensures ComesTo(peers["q"], 0, Got(ImageName(0, 1)))
    ensures EndedWith(["p"], peers, 0, Raised(e))
  {
    hide TargetIn, ImageName;
    e := Uncaught("PermissionError");
    var names := [ImageName(0, 1)];
    var other := Listing(names, map[]);
    peers := map["p" := Peer(SUPPORTED_PROTOCOL, Unanswered(e)), "q" := Peer(SUPPORTED_PROTOCOL, other)];
    ImageNameHasTarget(0, 1);
    assert Offers(names, 0, 1) by {
      assert TargetIn(names[0], 0) == Some(1);
    }
    assert Newest(names, 0, 1);
    assert ["p"][..0] == [];
  }

  /** In whatever order the peers are drawn, none twice and none that is not eligible: the search ends with the first
      drawn that gives an image or raises an error that is not caught, all before it being passed over. Nothing is
      found exactly if every eligible peer is passed over, and then each was tried. */
  method DownloadFromRandomHost(peers: map<string, Peer>, protocol: string, current: nat)
    returns (r: Result<Option<string>, SearchError>, tried: seq<string>)
    ensures Drawn(tried, Eligible(peers, protocol)) && |tried| <= |Eligible(peers, protocol)|
    ensures r == Err(NoPeers) <==> Eligible(peers, protocol) == map[]
    ensures r == Err(Unsupported) <==> Eligible(peers, protocol) != map[] && protocol != SUPPORTED_PROTOCOL
    ensures match r
            case Ok(Some(name)) => EndedWith(tried, Eligible(peers, protocol), current, Got(name))
            case Ok(None) => forall h :: h in Eligible(peers, protocol) ==> h in tried
            case Err(RaisedBy(host, e)) =>
              EndedWith(tried, Eligible(peers, protocol), current, Raised(e)) && host == tried[|tried| - 1]
            case Err(_) => tried == []
    ensures r == Ok(None) <==>
              && Eligible(peers, protocol) != map[] && protocol == SUPPORTED_PROTOCOL
              && forall h :: h in Eligible(peers, protocol) ==> Useless(Eligible(peers, protocol)[h], current)
  {
    hide ComesTo, Useless, Eligible, Drawn, AllUseless, EndedWith;
    tried := [];
    var filtered := Eligible(peers, protocol);
    ghost var eligible := filtered;
    NoneDrawn(eligible, current);
    if filtered == map[] {
      return Err(NoPeers), tried;
    }
    if protocol != SUPPORTED_PROTOCOL {
      return Err(Unsupported), tried;
    }
    var downloaded: Option<string> := None;
    while filtered != map[] && downloaded == None
      invariant Drawn(tried, eligible) && (downloaded == None ==> Untried(tried, eligible, filtered))
      invariant match downloaded
                case None => AllUseless(tried, eligible, current)
                case Some(name) => EndedWith(tried, eligible, current, Got(name))
      decreases |filtered|
    {
      var host :| host in filtered;
      var attempt := Download(filtered[host], current);
      EndsOrUseless(filtered[host], current, attempt);
      DrawOne(tried, eligible, host);
      LastEnds(tried, eligible, current, host, attempt);
      RestShrinks(tried, eligible, filtered, host);
      if !attempt.Got? && !attempt.Raised? {
        UselessOne(tried, eligible, current, host);
      }
      filtered := filtered - {host};
      tried := tried + [host];
      match attempt {
        case Got(name) => downloaded := Some(name);
        case Raised(e) =>
          NotAllUseless(tried, eligible, current, attempt);
          DrawnFit(tried, eligible);
          return Err(RaisedBy(host, e)), tried;
        case NoImage =>
        case Failed =>
      }
    }
    DrawnFit(tried, eligible);
    if downloaded.Some? {
      NotAllUseless(tried, eligible, current, Got(downloaded.value));
    } else {
      AllWereTried(tried, eligible, current);
    }
    r := Ok(downloaded);
  }

  /** What is left are the peers not tried. */
  ghost predicate Untried(tried: seq<string>, eligible: map<string, Peer>, left: map<string, Peer>) {
    && (forall h :: h in left <==> h in eligible && h !in tried)
    && (forall h :: h in left ==> left[h] == eligible[h])
  }

  lemma NoneDrawn(eligible: map<string, Peer>, current: nat)
    ensures Drawn([], eligible) && AllUseless([], eligible, current) && Untried([], eligible, eligible)
  {
  }

  lemma RestShrinks(tried: seq<string>, eligible: map<string, Peer>, left: map<string, Peer>, host: string)
    requires Untried(tried, eligible, left) && host in left
    ensures Untried(tried + [host], eligible, left - {host}) && |left - {host}| < |left|
  {
    assert forall h :: h in tried + [host] <==> h in tried || h == host;
    assert (left - {host}).Keys == left.Keys - {host};
    assert |left - {host}| == |(left - {host}).Keys| && |left| == |left.Keys|;
  }

  lemma AllWereTried(tried: seq<string>, eligible: map<string, Peer>, current: nat)
    requires AllUseless(tried, eligible, current) && Untried(tried, eligible, map[])
    ensures forall h :: h in eligible ==> h in tried && Useless(eligible[h], current)
  {
    hide Useless;
    forall h | h in eligible ensures h in tried && Useless(eligible[h], current) {
      assert h in tried;
    }
  }

  lemma NotAllUseless(tried: seq<string>, eligible: map<string, Peer>, current: nat, a: Attempt)
    requires EndedWith(tried, eligible, current, a) && (a.Got? || a.Raised?)
    ensures exists h :: h in eligible && !Useless(eligible[h], current)
  {
    hide AllUseless, ComesTo, Useless;
    EndsOrUseless(eligible[tried[|tried| - 1]], current, a);
  }
}
