# myvideoaz: a Dafny model of the playlist step

`main.py` reads a list of IPTV "sites", and for every channel of a site it
resolves a stream URL and writes (or deletes) that channel's `.m3u8` file.
This project models the logic under the HTTP, regex and filesystem calls:

- **Playlist rewriter** (`playlist_text`, module `Playlist`). It takes a
  fetched M3U8 body, already split into lines. Empty lines are dropped.
  Tag and comment lines (first character `#`) are kept as they are. Every
  other line is replaced by `urljoin(url, line)`. Each emitted line ends
  with a newline. The text is empty for any status other than 200, for an
  error in the fetch or the decoding, and when `urljoin` raises for some
  line. `PlaylistText` is the source's loop. It is proved equal to
  `Join(Rewritten(...))`, and the lemmas are stated about that function.
- **Stream resolver** (`get_stream_url`, module `Resolver`). A method other
  than `GET` or `POST` gives no result and makes no request. Otherwise the
  result is the first element of the `re.findall` list, or no result when
  the list is empty, the request fails or the pattern raises.
- **Channel step** (the body of the channel loop in `main`, module
  `Orchestrator`). The channel URL is the site template with each variable
  applied in order as a literal `str.replace` (`ChannelUrl`). The stream is
  resolved with a plain GET. The step then either deletes the channel's
  file or writes a non-empty text to it. The file system is a `FileSystem`
  object whose `files` field maps paths to contents. `ChannelAction` is the
  pure decision, and `FileSystem.ProcessChannel` is proved to apply exactly
  that decision, to the channel's own path only.
- **Python string built-ins** used by the step (module `Text`): the
  substring test `f in s`, `s.replace(old, new)` (including Python's
  behaviour for an empty `old`), and `str(n)` for an int.

The request layer, `re.findall`, `urljoin` and the playlist fetch are
function parameters. Their types are `Transport`, `FindAll` and `UrlJoin`,
and the playlist fetch is the `fetch` field of `Network`. A `UrlJoin`
returns `None` where `urljoin` raises. A site's template, pattern, mode, filter and
bandwidth are the fields of `Site`. The channel's file path is a parameter
of the step.

The master playlist is modelled exactly as `main.py` builds it. Its second
line is `##EXT-X-VERSION:3`, with two `#` characters. Players therefore
read that line as a comment, not as an EXT-X-VERSION tag. The text also
has no newline after the stream URL.

`get_stream_url` returns `results[0]`, the first element of the
`re.findall` list. For a pattern with one group that is the first match's
group. For a pattern with no group it is the whole match. Patterns with
several groups are listed under "## Left out".

## Model

| member | source | states |
|---|---|---|
| `Playlist.RewriteLine` | main.py:39-42 | one non-empty line's output form; specified by `RewrittenKeepsEveryLine` |
| `Playlist.Rewritten` | main.py:35-42 | the output lines of a body; specified by `RewrittenAppend`, `RewrittenAt`, `RewrittenFromInput` and `RewrittenEmptyIff` |
| `Playlist.Join` | main.py:40-42 | the text built from the output lines; specified by `JoinAppend`, `JoinTerminated` and `SplitJoin` |
| `Playlist.PlaylistTextOf` | main.py:30-49 | the text `playlist_text` returns; specified by `PlaylistTextEmptyIff` and `PlaylistTextLines` |
| `Playlist.PlaylistText` | main.py:30-49 | the loop's text is the rewritten lines of a 200 response, each newline-terminated, and the empty text for any other status or an error |
| `Playlist.RewrittenAppend` | main.py:35-42 | lines are rewritten one by one: the output of a concatenation is the output of each part, in order |
| `Playlist.RewrittenAt` | main.py:35-42 | an empty input line contributes no output line; a non-empty one contributes exactly one, between the output of the lines before it and the output of the lines after it |
| `Playlist.RewrittenKeepsEveryLine` | main.py:39-42 | a non-empty line starting with `#` (such as `#EXTM3U`) appears unchanged in the output; any other non-empty line appears as `urljoin(url, line)` |
| `Playlist.RewrittenFromInput` | main.py:35-42 | every output line is the rewritten form of some non-empty input line |
| `Playlist.RewrittenEmptyIff` | main.py:37-38 | the output has no lines exactly when every input line is empty |
| `Playlist.JoinAppend` | main.py:32-42 | building the text by repeated `+=` composes part by part |
| `Playlist.JoinTerminated` | main.py:40-42 | the joined text is empty only for no lines, and otherwise ends in a newline |
| `Playlist.SplitJoin` | main.py:40-42 | when no line contains a newline, splitting the text at newlines gives back exactly the emitted lines |
| `Playlist.PlaylistTextEmptyIff` | main.py:34-49 | the text is empty exactly when the status is not 200, `urljoin` raises for some line, or every fetched line is empty; a non-empty text ends in a newline |
| `Playlist.PlaylistTextLines` | main.py:35-43 | when `urljoin` raises for no line, and neither the fetched lines nor the resolved URLs contain a newline, the text read back line by line is the rewritten line list |
| `Resolver.RequestFor` | main.py:12-18 | the request a method name selects; specified by `FirstMatch` and `UnsupportedMethod` |
| `Resolver.GetStreamUrl` | main.py:10-28 | the resolver itself; specified by `UnsupportedMethod`, `FirstMatch` and `ResultIsAMatch` |
| `Resolver.DefaultStreamUrl` | main.py:74 | the call `main` makes; specified by `DefaultIsPlainGet` |
| `Resolver.UnsupportedMethod` | main.py:12-18 | a method other than "GET" or "POST" gives no result, whatever the network would answer |
| `Resolver.FirstMatch` | main.py:12-25 | for GET or POST the result is the first element of the match list of that method's reply, and no result when the list is empty, the pattern raises or the request fails |
| `Resolver.ResultIsAMatch` | main.py:20-22 | every result is an element of the match list for the reply to the request that the method selects |
| `Resolver.DefaultIsPlainGet` | main.py:74 | the call made by `main` depends only on the reply to a GET of the channel URL with no headers |
| `Text.Contains` | main.py:80 | Python's `f in s`; specified by `ContainsIffOccurs` |
| `Text.ReplaceAll` | main.py:72 | Python's `s.replace(old, new)`; specified by `ReplaceFirst`, `ReplaceSkip`, `ReplaceBySelf`, `ReplaceAbsent` and, for an empty `old`, `InterleaveAt` |
| `Text.Interleave` | main.py:72 | `s.replace("", new)`; specified by `InterleaveLength` and `InterleaveAt` |
| `Text.IntToString` | main.py:88 | Python's `str` of an int; specified by `IntToStringRoundTrip` and `IntToStringNoNewline` |
| `Text.ContainsIffOccurs` | main.py:80 | Python's `f in s` holds exactly when `f` occurs as a contiguous block of `s` |
| `Text.ReplaceFirst` | main.py:72 | the first occurrence of a non-empty name is replaced by the value; the text before it is kept and replacing goes on after the occurrence |
| `Text.ReplaceSkip` | main.py:72 | a prefix in which no occurrence of a non-empty name starts is kept as it is |
| `Text.ReplaceBySelf` | main.py:72 | replacing a name by itself leaves the URL unchanged |
| `Text.ReplaceAbsent` | main.py:72 | a non-empty name that does not occur leaves the URL unchanged |
| `Text.InterleaveLength` | main.py:72 | the length of the result of replacing an empty name: the value is inserted `|s| + 1` times |
| `Text.InterleaveAt` | main.py:72 | replacing an empty name puts the value before every character and once at the end: block `k` of the result is the value followed by `s[k]`, and the text ends with the value |
| `Text.NatToString` | main.py:88 | the bandwidth's decimal form is a non-empty digit string without leading zeros |
| `Text.NatToStringRoundTrip` | main.py:88 | the decimal form reads back as the same number |
| `Text.IntToStringRoundTrip` | main.py:88 | `str` of any int, negative ones included, is non-empty and reads back as that int |
| `Text.IntToStringNoNewline` | main.py:88 | `str` of an int contains no newline, so the bandwidth stays on its line |
| `Orchestrator.Substituted` | main.py:71-72 | the variables applied in list order; specified by `SubstitutedSnoc`, `SubstitutedAppend` and `SubstitutedAbsent` |
| `Orchestrator.Rejected` | main.py:80 | the output-filter test; specified by `FilterRejectionDeletes` and `UnsetFilterIsSkipped` |
| `Orchestrator.MasterText` | main.py:88 | the synthesised master playlist; specified by `MasterDefaultBandwidth` and `MasterTextLines` |
| `Orchestrator.ModeText` | main.py:85-91 | the mode dispatch; specified by `UnknownModeDeletes`, `MasterModeWrites` and `VariantModeWritesPlaylist` |
| `Orchestrator.ChannelAction` | main.py:74-98 | the step's decision; specified by `NeverWritesEmpty`, `NoStreamDeletes`, `FilterRejectionDeletes`, `UnknownModeDeletes`, `MasterModeWrites`, `VariantModeWritesPlaylist` and `VariantModeFailureDeletes` |
| `Orchestrator.ChannelUrl` | main.py:69-72 | the channel URL is the template with every variable substituted in list order; with no variables it is the template |
| `Orchestrator.SubstitutedSnoc` | main.py:71-72 | each further variable is one `str.replace` of its name by its value on the URL built so far |
| `Orchestrator.SubstitutedAppend` | main.py:71-72 | each substitution acts on the result of the ones before it |
| `Orchestrator.SubstitutedAbsent` | main.py:69-72 | variables whose non-empty names do not occur in the template leave it unchanged |
| `Orchestrator.Applied` | main.py:76-98 | a delete leaves the channel's path absent, a write leaves it holding the text, and every other path keeps its presence and content |
| `Orchestrator.NeverWritesEmpty` | main.py:93-98 | no step ever writes an empty text |
| `Orchestrator.NoStreamDeletes` | main.py:75-78 | a missing or empty stream URL deletes the file |
| `Orchestrator.FilterRejectionDeletes` | main.py:80-83 | a non-empty output filter that is not a substring of the stream URL deletes the file |
| `Orchestrator.UnsetFilterIsSkipped` | main.py:80 | a missing filter and an empty one decide alike: neither rejects |
| `Orchestrator.UnknownModeDeletes` | main.py:89-98 | a mode other than "variant" or "master" deletes the file |
| `Orchestrator.MasterModeWrites` | main.py:87-95 | in master mode an accepted stream is always written, with the synthesised playlist |
| `Orchestrator.MasterDefaultBandwidth` | main.py:88 | without a bandwidth the playlist says `BANDWIDTH=0` |
| `Orchestrator.MasterTextLines` | main.py:88 | the master playlist is the lines `#EXTM3U`, `##EXT-X-VERSION:3`, `#EXT-X-STREAM-INF:BANDWIDTH=<bw>` and the stream URL, with no newline at the end |
| `Orchestrator.VariantModeWritesPlaylist` | main.py:85-98 | in variant mode an accepted stream is written exactly when its playlist text is non-empty, and then with that text |
| `Orchestrator.VariantModeFailureDeletes` | main.py:85-98 | in variant mode a failed fetch, a non-200 status, a line for which `urljoin` raises, or a body of only empty lines deletes the file |
| `Orchestrator.StepIdempotent` | main.py:93-98 | running the step again on unchanged inputs leaves the files as they were |
| `Orchestrator.FileSystem.RemoveIfPresent` | main.py:76-77 | removing takes the path out of the file map and changes nothing else |
| `Orchestrator.FileSystem.WriteFile` | main.py:94-95 | writing leaves the path holding exactly the text |
| `Orchestrator.FileSystem.ProcessChannel` | main.py:68-98 | the step applies `ChannelAction` to the channel's path: afterwards that path is absent or holds a non-empty text, and every other path is unchanged |

## Left out

- HTTP: `requests.get`/`requests.post`, status codes, `iter_lines` and UTF-8 decoding are not modelled. A reply is a `Reply` value. A playlist fetch is a `Response` holding a status and the decoded lines, or a `TransportError` that stands for any exception the fetch or the decoding raises.
- The regex engine: `re.findall` is the `FindAll` parameter, with `None` when the pattern raises. Its list elements are strings. The tuples that `findall` returns for a pattern with several groups are not modelled.
- `urljoin` is the `UrlJoin` parameter. It returns `None` where `urljoin` raises. The relative-reference resolution of section 5.2 of RFC 3986 is not re-derived.
- The channel's file path (`slugify`, `os.path.join`, `os.getcwd`) is a parameter of `ProcessChannel`. `os.makedirs` is not modelled.
- The loops over sites and channels (main.py:63-67) are not modelled. One turn of the channel loop is one `ProcessChannel` call.
- Command-line handling and loading the JSON configuration (main.py:52-61) are I/O glue. So are the `print` logging (main.py:17, 24, 27, 45, 48, 90) and the `tqdm` progress bar (main.py:67).
- File contents are modelled as the logical text. Text-mode newline translation (each `"\n"` written as `"\r\n"` on Windows) and the UTF-8 byte encoding of the written file are not modelled.
- Errors raised by `os.remove` or by writing the file are not caught in the source and end the run. The model's file operations do not fail.
- The configuration's JSON types are fixed in the model. `url`, `pattern` and `mode` are strings, `output_filter` is an optional string and `bandwidth` an optional int. A channel's `name` and each variable's `name` and `value` are strings too. Other JSON values are not modelled, for example a `null` bandwidth printed as `None`.
- A missing `url`, `pattern` or channel `name` key, or a variable without `name` or `value`, is not modelled. In the source each raises `KeyError` outside any `try`, which ends the run and leaves that channel's old file in place.
- A missing `mode` key is not modelled either. It raises `KeyError` at main.py:85 only for a stream that was found and passed the filter. A missing or rejected stream still deletes the file, and the run goes on.
