/** One turn of the channel loop of `main` in main.py: build the channel URL,
    resolve the stream, then either write the channel's playlist file or
    delete it. The file system is a map from path to content. */
module Orchestrator {
  import opened Wrappers
  import opened Text
  import opened Playlist
  import opened Resolver

  /** A `{name, value}` entry of a channel's `variables`. */
  datatype Variable = Variable(name: string, value: string)

  /** A channel; a missing `variables` key is the empty list. */
  datatype Channel = Channel(name: string, variables: seq<Variable>)

  /** The fields of a site the channel step reads. */
  datatype Site = Site(url: string, pattern: string, mode: string,
                       outputFilter: Option<string>, bandwidth: Option<int>)

  /** Everything outside the program that the step consults. */
  datatype Network = Network(transport: Transport, findAll: FindAll,
                             fetch: string -> Playlist.Response, join: UrlJoin)

  type Path = string

  /** How a step ends for the channel's file. */
  datatype Action = Delete | Write(text: string)

  /** The variables applied in list order, each `str.replace` on the result of
      the one before. */
  function Substituted(template: string, variables: seq<Variable>): string
    decreases |variables|
  {
    if variables == [] then template
    else Substituted(ReplaceAll(template, variables[0].name, variables[0].value), variables[1..])
  }

  /** Substituting a list of variables is substituting its first part, then
      its second part on the result. */
  lemma {:induction false} SubstitutedAppend(template: string, a: seq<Variable>, b: seq<Variable>)
    ensures Substituted(template, a + b) == Substituted(Substituted(template, a), b)
    decreases |a|
  {
    if a == [] {
      assert a + b == b;
    } else {
      assert (a + b)[1..] == a[1..] + b;
      SubstitutedAppend(ReplaceAll(template, a[0].name, a[0].value), a[1..], b);
    }
  }

  /** One more variable is one more `str.replace` on the URL built so far. */
  lemma SubstitutedSnoc(template: string, variables: seq<Variable>, v: Variable)
    ensures Substituted(template, variables + [v])
         == ReplaceAll(Substituted(template, variables), v.name, v.value)
  {
    SubstitutedAppend(template, variables, [v]);
    assert [v][1..] == [];
  }

  /** Variables whose names do not occur leave the template as it is; so does
      an empty list. */
  lemma {:induction false} SubstitutedAbsent(template: string, variables: seq<Variable>)
    requires forall k :: 0 <= k < |variables| ==> variables[k].name != "" && !Contains(template, variables[k].name)
    ensures Substituted(template, variables) == template
    decreases |variables|
  {
    if variables != [] {
      ReplaceAbsent(template, variables[0].name, variables[0].value);
      SubstitutedAbsent(template, variables[1..]);
    }
  }

  /** The channel URL: the site's URL template with the channel's variables
      substituted one after another. */
  method ChannelUrl(template: string, variables: seq<Variable>) returns (url: string)
    ensures url == Substituted(template, variables)
    ensures variables == [] ==> url == template
  {
    url := template;
    for i := 0 to |variables|
      invariant url == Substituted(template, variables[..i])
    {
      assert variables[..i + 1] == variables[..i] + [variables[i]];
      SubstitutedSnoc(template, variables[..i], variables[i]);
      url := ReplaceAll(url, variables[i].name, variables[i].value);
    }
    assert variables[..|variables|] == variables;
  }

  /** `site.get("output_filter") and site["output_filter"] not in stream_url`:
      a missing or empty filter never rejects. */
  predicate Rejected(outputFilter: Option<string>, stream: string) {
    outputFilter.Some? && outputFilter.value != "" && !Contains(stream, outputFilter.value)
  }

  /** The three header lines of the synthesised master playlist. The second
      begins with two `#` characters, as in main.py, so players read it as a
      comment rather than as an EXT-X-VERSION tag. */
  const ExtM3u := "#EXTM3U"
  const VersionLine := "##EXT-X-VERSION:3"
  const StreamInfPrefix := "#EXT-X-STREAM-INF:BANDWIDTH="

  /** The master playlist synthesised for a stream; the bandwidth defaults to 0. */
  function MasterText(bandwidth: Option<int>, stream: string): string {
    ExtM3u + "\n" + VersionLine + "\n" + StreamInfPrefix + IntToString(bandwidth.GetOr(0)) + "\n" + stream
  }

  /** The text the mode dispatch produces; an unknown mode produces none. */
  function ModeText(site: Site, stream: string, net: Network): string {
    if site.mode == "variant" then PlaylistTextOf(net.join, stream, net.fetch(stream))
    else if site.mode == "master" then MasterText(site.bandwidth, stream)
    else ""
  }

  /** The decision one step makes for a channel. */
  function ChannelAction(site: Site, channel: Channel, net: Network): Action {
    var url := Substituted(site.url, channel.variables);
    match DefaultStreamUrl(url, site.pattern, net.transport, net.findAll)
    case None => Delete
    case Some(stream) =>
      if stream == "" || Rejected(site.outputFilter, stream) then Delete
      else
        var text := ModeText(site, stream, net);
        if text == "" then Delete else Write(text)
  }

  /** The file map after an action on `path`. */
  function Applied(files: map<Path, string>, path: Path, action: Action): (r: map<Path, string>)
    ensures forall q :: q != path ==> (q in r <==> q in files)
    ensures forall q :: q != path && q in files ==> r[q] == files[q]
    ensures action.Delete? ==> path !in r
    ensures action.Write? ==> path in r && r[path] == action.text
  {
    match action
    case Delete => files - {path}
    case Write(text) => files[path := text]
  }

  /** No step writes an empty file. */
  lemma NeverWritesEmpty(site: Site, channel: Channel, net: Network)
    ensures ChannelAction(site, channel, net).Write? ==> ChannelAction(site, channel, net).text != ""
  {
  }

  /** A missing or empty stream URL deletes the file. */
  lemma NoStreamDeletes(site: Site, channel: Channel, net: Network)
    requires var url := Substituted(site.url, channel.variables);
             DefaultStreamUrl(url, site.pattern, net.transport, net.findAll) in {None, Some("")}
    ensures ChannelAction(site, channel, net) == Delete
  {
  }

  /** A stream URL the output filter rejects deletes the file. */
  lemma FilterRejectionDeletes(site: Site, channel: Channel, net: Network, stream: string)
    requires DefaultStreamUrl(Substituted(site.url, channel.variables), site.pattern, net.transport, net.findAll) == Some(stream)
    requires Rejected(site.outputFilter, stream)
    ensures ChannelAction(site, channel, net) == Delete
  {
  }

  /** The filter takes part only when it is a non-empty string: a missing
      filter and an empty one decide the same as each other. */
  lemma UnsetFilterIsSkipped(site: Site, channel: Channel, net: Network)
    requires site.outputFilter in {None, Some("")}
    ensures ChannelAction(site, channel, net) == ChannelAction(site.(outputFilter := None), channel, net)
  {
  }

  /** An unknown mode deletes the file. */
  lemma UnknownModeDeletes(site: Site, channel: Channel, net: Network)
    requires site.mode != "variant" && site.mode != "master"
    ensures ChannelAction(site, channel, net) == Delete
  {
  }

  /** In master mode an accepted stream is always written, with the
      synthesised playlist. */
  lemma MasterModeWrites(site: Site, channel: Channel, net: Network, stream: string)
    requires site.mode == "master"
    requires DefaultStreamUrl(Substituted(site.url, channel.variables), site.pattern, net.transport, net.findAll) == Some(stream)
    requires stream != "" && !Rejected(site.outputFilter, stream)
    ensures ChannelAction(site, channel, net) == Write(MasterText(site.bandwidth, stream))
  {
  }

  /** Without a bandwidth the master playlist says `BANDWIDTH=0`. */
  lemma MasterDefaultBandwidth(stream: string)
    ensures MasterText(None, stream) == ExtM3u + "\n" + VersionLine + "\n" + StreamInfPrefix + "0\n" + stream
  {
  }

  /** The master playlist has four lines: the three header lines and the
      stream URL, whose line is not newline-terminated; the bandwidth line
      carries the configured number. */
  lemma MasterTextLines(bandwidth: Option<int>, stream: string)
    requires stream != "" && '\n' !in stream
    ensures var bw := IntToString(bandwidth.GetOr(0));
            SplitLines(MasterText(bandwidth, stream))
            == [ExtM3u, VersionLine, StreamInfPrefix + bw, stream]
    ensures MasterText(bandwidth, stream)[|MasterText(bandwidth, stream)| - 1] != '\n'
  {
    var bw := IntToString(bandwidth.GetOr(0));
    var l3 := StreamInfPrefix + bw;
    IntToStringNoNewline(bandwidth.GetOr(0));
    StreamInfLine(bw);
    assert MasterText(bandwidth, stream) == ExtM3u + "\n" + (VersionLine + "\n" + (l3 + "\n" + stream));
    SplitLinesCons(ExtM3u, VersionLine + "\n" + (l3 + "\n" + stream));
    SplitLinesCons(VersionLine, l3 + "\n" + stream);
    SplitLinesCons(l3, stream);
    SplitLinesLast(stream);
  }

  lemma StreamInfLine(bw: string)
    requires '\n' !in bw
    ensures '\n' !in StreamInfPrefix + bw
  {
  }

  /** In variant mode an accepted stream is written exactly when its playlist
      text is non-empty, and then with that text. */
  lemma VariantModeWritesPlaylist(site: Site, channel: Channel, net: Network, stream: string)
    requires site.mode == "variant"
    requires DefaultStreamUrl(Substituted(site.url, channel.variables), site.pattern, net.transport, net.findAll) == Some(stream)
    requires stream != "" && !Rejected(site.outputFilter, stream)
    ensures var text := PlaylistTextOf(net.join, stream, net.fetch(stream));
            ChannelAction(site, channel, net) == if text == "" then Delete else Write(text)
  {
  }

  /** In variant mode a failed fetch, a non-200 status, a line for which
      `urljoin` raises or a body of only empty lines deletes the file. */
  lemma VariantModeFailureDeletes(site: Site, channel: Channel, net: Network, stream: string)
    requires site.mode == "variant"
    requires DefaultStreamUrl(Substituted(site.url, channel.variables), site.pattern, net.transport, net.findAll) == Some(stream)
    requires var response := net.fetch(stream);
             response.TransportError? || response.status != 200
             || JoinRaises(net.join, stream, response.lines)
             || forall i :: 0 <= i < |response.lines| ==> response.lines[i] == ""
    ensures ChannelAction(site, channel, net) == Delete
  {
    var response := net.fetch(stream);
    if response.Response? {
      PlaylistTextEmptyIff(net.join, stream, response.status, response.lines);
    }
  }

  /** The decision takes no account of the files, and applying it a second
      time changes nothing: running the step again on unchanged site,
      channel and network leaves the files as the first run left them. */
  lemma StepIdempotent(files: map<Path, string>, path: Path, site: Site, channel: Channel, net: Network)
    ensures var action := ChannelAction(site, channel, net);
            Applied(Applied(files, path, action), path, action) == Applied(files, path, action)
  {
  }

  /** The file system: each path's current content. */
  class FileSystem {
    var files: map<Path, string>

    constructor (files: map<Path, string>)
      ensures this.files == files
    {
      this.files := files;
    }

    /** `if os.path.isfile(path): os.remove(path)`. */
    method RemoveIfPresent(path: Path)
      modifies this
      ensures files == old(files) - {path}
    {
      if path in files {
        files := files - {path};
      }
    }

    /** `open(path, "w+")` followed by `write(text)`: the file holds exactly `text`. */
    method WriteFile(path: Path, text: string)
      modifies this
      ensures files == old(files)[path := text]
    {
      files := files[path := text];
    }

    /** One turn of the channel loop for a channel whose file is `path`. */
    method ProcessChannel(site: Site, channel: Channel, path: Path, net: Network)
      modifies this
      ensures files == Applied(old(files), path, ChannelAction(site, channel, net))
      ensures path in files ==> files[path] != ""
      ensures forall q :: q != path ==> (q in files <==> q in old(files))
      ensures forall q :: q != path && q in old(files) ==> files[q] == old(files)[q]
    {
      var url := ChannelUrl(site.url, channel.variables);
      var stream := DefaultStreamUrl(url, site.pattern, net.transport, net.findAll);
      if stream.None? || stream.value == "" {
        RemoveIfPresent(path);
        return;
      }
      var streamUrl := stream.value;
      if Rejected(site.outputFilter, streamUrl) {
        RemoveIfPresent(path);
        return;
      }
      var text: string;
      if site.mode == "variant" {
        text := PlaylistText(net.join, streamUrl, net.fetch(streamUrl));
      } else if site.mode == "master" {
        text := MasterText(site.bandwidth, streamUrl);
      } else {
        text := "";
      }
      if text != "" {
        WriteFile(path, text);
      } else {
        RemoveIfPresent(path);
      }
    }
  }
}
