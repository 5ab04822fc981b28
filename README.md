# WA business-registry scraper: the verified core

The scraper searches the Washington Corporations and Charities registry one
three-character keyword at a time. For each keyword it walks the results
grid and opens each business's detail page. It downloads up to a few filing
PDFs per business and reads the phone, e-mail and executors out of their
text. It spreads the work over rotating HTTP proxies, and a small relay
adds proxy credentials to the first request of each connection. Offline
scripts generate the keywords, split the proxy list, and rebuild the result
and tracking files from what is already on disk.

This project models the deterministic logic beneath the browser driver and
proves what that logic promises:

- **Text and records** (`pager.dfy`, `sanitize.dfy`, `pdf_text.dfy`,
  `filings.dfy`, `grid.dfy`, `records.dfy`, `flags.dfy`):
  - the pager regex and its placeholder rule;
  - the file-name sanitiser;
  - the PDF phone, e-mail and executor heuristics over the text's lines;
  - the PDF validity check and the new-download detection;
  - the filing loop and its cap;
  - results-grid, filing-history and governor rows over pre-split cells;
  - the record skeleton and the agent fallback merge.
- **Proxies** (`proxy_pool.dfy`, `relay.dfy`, `bytes.dfy`, `base64.dfy`):
  - proxy-list normalisation and the deny list;
  - `assign_proxies_for_batch`, a class whose `excluded` set and deny-list file grow in place;
  - the relay's `host:port:user:pass` parser;
  - the `Proxy-Authorization` header splice on bytes (section 11.7.2 of RFC 9110, section 2 of RFC 7617, section 2.1 of RFC 9112);
  - Base64 itself (section 4 of RFC 4648);
  - local-port numbering.
- **Navigation and bookkeeping** (`navigation.dfy`, `keyword_run.dfy`):
  - a `Browser` class whose observations come from a script (time to page). Its actions append to a log and bump counters.
  - the return-to-results procedures as methods over the browser, with their step bounds and stop rules;
  - the per-keyword de-duplication and counters as classes whose fields the methods update;
  - the form-submit retry policy.
- **Offline scripts** (`backfill.dfy`, `keywords.dfy`, `proxy_split.dfy`):
  - the backfill file-name parser, collectors and merge;
  - the keyword enumeration;
  - the balanced proxy-list split.

`wrappers.dfy` (Option, Result), `json.dfy` (decoded JSON values and Python
truthiness) and `text.dfy` (ASCII character classes, `strip`, `split`,
`splitlines`, `join`, string order, decimal rendering) are shared helpers.

Functions shared line for line by several scraper variants are modelled once,
and the table cites the copy it follows. Variants are modelled separately
where they diverge: the two status fallback orders, the two backoff units,
the governor rule, the first-detail flag, and the three return-navigation
strategies.

In the table below, `wa_scraper3/wa_search_sb_local_pdf_proxy4_v2.py` is the
newest scraper and `wa_scraper/wa_search_sb_local_pdf6.py` the one with the
newer return navigation.

## Model

| member | source | states |
|---|---|---|
| Pager.ParsePager | wa_scraper3/wa_search_sb_local_pdf_proxy4_v2.py:229-248 | a parsed pager never has zero total pages or zero records |
| Pager.PagerRoundTrip | wa_scraper3/wa_search_sb_local_pdf_proxy4_v2.py:236-248 | the pager text of any info with non-zero pages and records parses back to exactly those five integers |
| Pager.PlaceholderRejected | wa_scraper3/wa_search_sb_local_pdf_proxy4_v2.py:238-240 | the "Page 0 of 0, records 0 to 0 of 0" placeholder yields None |
| Pager.FirstMatchOnly | wa_scraper3/wa_search_sb_local_pdf_proxy4_v2.py:229-240 | a zero-page first match yields None even when a valid pager follows it: only the first match counts |
| Pager.NoPagerNoResult | wa_scraper3/wa_search_sb_local_pdf_proxy4_v2.py:234-235 | text where the pattern matches at no position yields None |
| Pager.SearchIsLeftmost | wa_scraper3/wa_search_sb_local_pdf_proxy4_v2.py:229-235 | the search result is the match at some position, and no earlier position matches |
| Pager.SearchFindsAny | wa_scraper3/wa_search_sb_local_pdf_proxy4_v2.py:229-235 | if the pattern matches at any position, the search finds a match |
| Pager.FirstMatchIsLeftmost | wa_scraper3/wa_search_sb_local_pdf_proxy4_v2.py:229-235 | the generic scan returns the leftmost match of any matcher |
| Pager.FirstMatchFindsAny | wa_scraper3/wa_search_sb_local_pdf_proxy4_v2.py:229-235 | the generic scan misses no match |
| Pager.MatchRendered | wa_scraper3/wa_search_sb_local_pdf_proxy4_v2.py:230 | the pattern, matched at the start of a rendered pager, reads back the info it was rendered from |
| Pager.RecordsRendered | wa_scraper3/wa_search_sb_local_pdf_proxy4_v2.py:230 | the "records A to B of C" tail reads back its three integers |
| Pager.SpaceRun | wa_scraper3/wa_search_sb_local_pdf_proxy4_v2.py:230 | `\s*` consumes exactly the leading white space |
| Pager.Word | wa_scraper3/wa_search_sb_local_pdf_proxy4_v2.py:230 | a literal matches case-insensitively exactly when the text starts with it, ignoring case, and the rest follows it |
| Pager.Spaces | wa_scraper3/wa_search_sb_local_pdf_proxy4_v2.py:230 | `\s+` needs one space and `\s*` none; what is left is a suffix not starting with a space |
| Pager.Number | wa_scraper3/wa_search_sb_local_pdf_proxy4_v2.py:230 | `(\d+)` matches exactly when the text starts with a digit and consumes the whole digit run |
| Sanitize.SanitizedIsSafe | wa_scraper3/wa_search_sb_local_pdf_proxy4_v2.py:350 | the sanitised name is non-empty, holds only `[A-Za-z0-9_]`, has no `_` at either end and no `__` |
| Sanitize.SanitizedLetters | wa_scraper3/wa_search_sb_local_pdf_proxy4_v2.py:350 | input without letters or digits gives "kw"; otherwise the output keeps exactly the input's letters and digits, in order |
| Sanitize.SanitizeIdempotent | wa_scraper3/wa_search_sb_local_pdf_proxy4_v2.py:350 | sanitising a sanitised name changes nothing |
| Sanitize.Collapse | wa_scraper3/wa_search_sb_local_pdf_proxy4_v2.py:350 | the substitution leaves only `[A-Za-z0-9_]`, never `__`, and keeps a leading letter or digit |
| Sanitize.CollapseKeepsAlnum | wa_scraper3/wa_search_sb_local_pdf_proxy4_v2.py:350 | the substitution keeps every letter and digit, in order |
| Sanitize.StripKeepsAlnum | wa_scraper3/wa_search_sb_local_pdf_proxy4_v2.py:350 | `strip('_')` keeps every letter and digit |
| Sanitize.CollapseSafe | wa_scraper3/wa_search_sb_local_pdf_proxy4_v2.py:350 | the substitution is the identity on text it could have produced |
| Sanitize.OtherRun | wa_scraper3/wa_search_sb_local_pdf_proxy4_v2.py:350 | `[^A-Za-z0-9]+` consumes exactly the leading run of other characters |
| ProxyPool.NormaliseLine | wa_scraper3/wa_search_sb_local_pdf_proxy4_v2.py:81-87 | a kept line is non-empty, stripped, not a comment, and has an http or https scheme |
| ProxyPool.LoadProxiesFromFile | wa_scraper3/wa_search_sb_local_pdf_proxy4_v2.py:65-90 | a missing file gives no proxies; otherwise the loop yields each normalised line, in file order |
| ProxyPool.ProxiesOfAppend | wa_scraper3/wa_search_sb_local_pdf_proxy4_v2.py:81-87 | normalisation works line by line, so it preserves order across concatenation |
| ProxyPool.ProxiesNormalised | wa_scraper3/wa_search_sb_local_pdf_proxy4_v2.py:81-87 | every loaded proxy is stripped, non-empty, not a comment and has a scheme |
| ProxyPool.NormaliseNormalised | wa_scraper3/wa_search_sb_local_pdf_proxy4_v2.py:81-87 | a normalised proxy normalises to itself |
| ProxyPool.ReloadUnchanged | wa_scraper3/wa_search_sb_local_pdf_proxy4_v2.py:81-87 | loading a written proxy list again gives the same list |
| ProxyPool.PrefixedHasScheme | wa_scraper3/wa_search_sb_local_pdf_proxy4_v2.py:85-86 | a line given the `http://` prefix has a scheme |
| ProxyPool.LoadExcludedProxies | wa_scraper3/wa_search_sb_local_pdf_proxy4_v2.py:92-99 | a missing file excludes nothing; every excluded entry is stripped and non-empty |
| ProxyPool.OneLineExcluded | wa_scraper3/wa_search_sb_local_pdf_proxy4_v2.py:96-99 | a one-line file not starting with `#` excludes exactly its stripped line |
| ProxyPool.IndentedCommentExcluded | wa_scraper3/wa_search_sb_local_pdf_proxy4_v2.py:96-99 | an indented `#` line is excluded, because the comment test runs before stripping, while the proxy loader drops it |
| ProxyPool.DenyList.AppendBadProxy | wa_scraper3/wa_search_sb_local_pdf_proxy4_v2.py:102-110 | the deny-list file gains the proxy's line and the set is unchanged |
| ProxyPool.WrittenAppend | wa_scraper3/wa_search_sb_local_pdf_proxy4_v2.py:107-109 | the lines written for a run of failures are the lines of each failure, in order |
| ProxyPool.DenyList.RecordFailure | wa_scraper3/wa_search_sb_local_pdf_proxy4_v2.py:191-194 | a failed probe adds the proxy to `excluded` and its line to the file |
| ProxyPool.RemainingShrinks | wa_scraper3/wa_search_sb_local_pdf_proxy4_v2.py:172-176 | excluding a remaining proxy strictly shrinks the remaining pool, so the probe loop ends |
| ProxyPool.DenyList.PickProxy | wa_scraper3/wa_search_sb_local_pdf_proxy4_v2.py:169-194 | returns a working proxy that is listed, not excluded and not used in the batch; returns None only when the pool is empty; every failed proxy is probed once, fails the probe, and is now excluded and written |
| ProxyPool.DenyList.AssignProxiesForBatch | wa_scraper3/wa_search_sb_local_pdf_proxy4_v2.py:133-198 | fails with AllExcluded exactly when every proxy was excluded, checked before the empty-batch return; succeeds exactly when some proxy is not excluded and the first `batch_size` keywords are no more than the working, non-excluded proxies; NotEnough reports how many distinct keywords were assigned before the pool ran dry; on success maps exactly those keywords to distinct working proxies that are not excluded; `excluded` only grows, by the proxies that failed |
| ProxyPool.DenyList.AssignBatch | wa_scraper3/wa_search_sb_local_pdf_proxy4_v2.py:165-198 | the loop over the batch succeeds exactly when the batch is no longer than the set of working proxies that were not excluded; otherwise it raises NotEnough once that set is used up, carrying the count of distinct keywords assigned so far; on success every batch keyword has its own distinct working proxy |
| ProxyPool.DenyList.AssignNext | wa_scraper3/wa_search_sb_local_pdf_proxy4_v2.py:165-195 | one keyword's turn: when a working proxy is left it goes to this keyword, no other keyword holds it, and the assignment now covers one keyword more; when none is left, the keywords assigned so far hold every working proxy that was not excluded, which is when the loop raises; either way every proxy that failed was listed once, added to the excluded set and to the file, and was never in use |
| ProxyPool.ExhaustedPool | wa_scraper3/wa_search_sb_local_pdf_proxy4_v2.py:169-176 | once nothing remains, every working proxy that was not excluded before the batch is already used in it, since only failing proxies get excluded |
| ProxyPool.AssignFresh | wa_scraper3/wa_search_sb_local_pdf_proxy4_v2.py:187-196 | giving a keyword a proxy not used before keeps the assignment one-to-one |
| Relay.ParseInt | wa_scraper3/multi_webshare_proxy.py:46-50 | `int(port)` succeeds only on text that is not blank |
| Relay.ParseIntToString | wa_scraper3/multi_webshare_proxy.py:47 | `int(str(n)) == n` |
| Relay.ParseProxyLine | wa_scraper3/multi_webshare_proxy.py:38-51 | a parsed line is neither blank nor a `#` comment |
| Relay.ParseFormat | wa_scraper3/multi_webshare_proxy.py:41-51 | a `host:port:user:pass` line written from colon-free, line-free fields parses back to the same upstream |
| Relay.ParsedLine | wa_scraper3/multi_webshare_proxy.py:41-45 | a parsed line is the stripped text of four colon-separated fields with an integer port |
| Relay.LoadProxies | wa_scraper3/multi_webshare_proxy.py:35-52 | the loop yields the upstream of each parsable line, in file order |
| Relay.UpstreamsOfAppend | wa_scraper3/multi_webshare_proxy.py:37-51 | parsing is line by line, so file order is kept |
| Relay.UpstreamsOfParsed | wa_scraper3/multi_webshare_proxy.py:37-51 | lines that all parse give exactly their upstreams |
| Relay.LoadWritten | wa_scraper3/multi_webshare_proxy.py:30-52 | a proxy file written one line per upstream loads back to the same list |
| Relay.AuthHeader | wa_scraper3/multi_webshare_proxy.py:66-67 | the header line is longer than its fixed prefix and CRLF |
| Relay.AuthCredentials | wa_scraper3/multi_webshare_proxy.py:66-67 | the header is `Proxy-Authorization: Basic `, then the base64 of `user:password`, then CRLF, and that base64 decodes back to the UTF-8 credentials |
| Relay.RStripLineBreaks | wa_scraper3/multi_webshare_proxy.py:105 | `rstrip(b"\r\n")` removes exactly the trailing CR and LF bytes |
| Relay.AuthHeaderLine | wa_scraper3/multi_webshare_proxy.py:105 | the header without its line break is the bare auth line |
| Relay.AuthLineMarked | wa_scraper3/multi_webshare_proxy.py:67-100 | the lowercased auth line starts with `proxy-authorization:`, the marker the splice checks for |
| Relay.FirstSend | wa_scraper3/multi_webshare_proxy.py:92-106 | the first chunk is forwarded (spliced or not) exactly when it is non-empty |
| Relay.FirstSendLength | wa_scraper3/multi_webshare_proxy.py:100-106 | without a header end, with an empty header block, or with an existing auth field the chunk passes through unchanged; otherwise it grows by exactly the auth line and one CRLF |
| Relay.SpliceInserts | wa_scraper3/multi_webshare_proxy.py:100-106 | the auth line is inserted right after the first CRLF of the chunk, and everything before and after is byte-identical |
| Relay.SpliceShape | wa_scraper3/multi_webshare_proxy.py:100-106 | the spliced chunk is the new header block, then the untouched separator and body |
| Relay.SpliceAuth | wa_scraper3/multi_webshare_proxy.py:100-106 | the inserted line is the Basic credentials of the upstream |
| Relay.SpliceNotReinjected | wa_scraper3/multi_webshare_proxy.py:99-105 | a request spliced once is never spliced again: its header block now holds the marker the splice checks for |
| Relay.InsertedLineMarked | wa_scraper3/multi_webshare_proxy.py:99-105 | inserting a line without CR or LF that starts with the marker, right after the first line, puts the marker inside the header block |
| Relay.MarkedHead | wa_scraper3/multi_webshare_proxy.py:99-100 | a chunk that shows the marker before its first blank line is passed through unchanged |
| Relay.NoBlankLineBefore | wa_scraper3/multi_webshare_proxy.py:99-104 | after the insertion, no blank line starts before the end of the marker, so the header block still holds it |
| Relay.FirstBreakInHead | wa_scraper3/multi_webshare_proxy.py:103-105 | the first CRLF of the chunk is the first CRLF of its header block |
| Relay.NewHead | wa_scraper3/multi_webshare_proxy.py:103-105 | re-joining the split header lines with the auth line inserted after the first gives the header with the line inserted at its first break |
| Bytes.Partition | wa_scraper3/multi_webshare_proxy.py:100 | `partition` rebuilds the input; the separator is empty exactly when it occurs nowhere, and otherwise sits at its first occurrence |
| Bytes.Find | wa_scraper3/multi_webshare_proxy.py:100 | the index found holds the pattern, or is the length when there is none |
| Bytes.FindIsFirst | wa_scraper3/multi_webshare_proxy.py:100 | no earlier index holds the pattern |
| Bytes.JoinSplit | wa_scraper3/multi_webshare_proxy.py:103-105 | joining the pieces of a byte split by its separator gives the input back |
| Bytes.LowerBytes | wa_scraper3/multi_webshare_proxy.py:101 | `lower()` maps each byte, keeping the length |
| Bytes.Utf8Append | wa_scraper3/multi_webshare_proxy.py:66 | UTF-8 encoding distributes over concatenation |
| Bytes.Utf8Ascii | wa_scraper3/multi_webshare_proxy.py:66 | ASCII text encodes to its own code points |
| Base64.DecodeEncode | wa_scraper3/multi_webshare_proxy.py:67 | decoding the base64 of any bytes gives them back |
| Base64.EncodeLength | wa_scraper3/multi_webshare_proxy.py:67 | the encoding has 4 symbols for every 3 bytes, rounded up |
| Base64.EncodeAlphabet | wa_scraper3/multi_webshare_proxy.py:67 | the encoding holds only alphabet symbols and `=` |
| Relay.ServersNumbered | wa_scraper3/multi_webshare_proxy.py:181-182 | the server for proxy `i` listens on `START_PORT + i`, whether or not earlier binds failed; ports increase; every bound port has its server |
| Relay.ServersSound | wa_scraper3/multi_webshare_proxy.py:181-197 | every server is a bound port in range that carries the proxy of its index |
| Relay.ServersComplete | wa_scraper3/multi_webshare_proxy.py:181-197 | no bindable port is skipped |
| Relay.StartServers | wa_scraper3/multi_webshare_proxy.py:169-207 | no proxies is an error of its own; otherwise the list is truncated to `MAX_PROXIES` and the servers are those bound, and none bound is an error |
| Relay.ReportedRangeWrong | wa_scraper3/multi_webshare_proxy.py:209-213 | when the first bind fails, the READY range begins at a port no server listens on |
| Relay.RunningRangeBounds | wa_scraper3/multi_webshare_proxy.py:209-213 | the range from the first to the last server's port covers every server and both ends are bound |
| Filings.IsValidPdfIff | wa_scraper3/wa_search_sb_local_pdf_proxy4_v2.py:1340-1358 | a file is valid exactly when it exists, is readable, is at least `min_size` bytes and starts with `%PDF` |
| Filings.SmallFileRejected | wa_scraper3/wa_search_sb_local_pdf_proxy4_v2.py:1350-1351 | under the default 2048 bytes no file is valid, whatever its first bytes |
| Filings.FirstNewPoll | wa_scraper/wa_search_sb_local_pdf6.py:1623-1633 | the first poll that shows a file absent from the snapshot, or None exactly when no poll does |
| Filings.LatestExists | wa_scraper/wa_search_sb_local_pdf6.py:1629-1632 | a non-empty set of new files has one with the latest mtime |
| Filings.WaitForNewPdf | wa_scraper/wa_search_sb_local_pdf6.py:1618-1634 | returns a file absent from `before_files`, from the first poll that shows one, with the latest mtime among that poll's new files; None exactly when no poll shows a new file |
| Filings.ParsePdfText | wa_scraper/wa_search_sb_local_pdf.py:756-781 | the result is `ParsedInfo(pages)`: nothing for an unreadable PDF; otherwise the phone and e-mail `Contact` gives for the joined page texts, and the executors of its lines; the e-mail is found exactly when the text holds one |
| Filings.ParseFilingPdf | wa_scraper3/wa_search_sb_local_pdf_proxy4_v2.py:934-966 | the result is `FilingInfo(file, pages)`: nothing for a file failing `is_valid_pdf`, otherwise the parse of its pages |
| Filings.TryFiling | wa_scraper3/wa_search_sb_local_pdf_proxy4_v2.py:2077-2236 | a summary is produced exactly when the filing number is non-blank, every browser step succeeded, a new PDF appeared and passed `is_valid_pdf`, and the copy exists; the summary carries the row's fields, `<pdf root>/<number>.pdf` and the parse of the copy |
| Filings.PdfDestInjective | wa_scraper3/wa_search_sb_local_pdf_proxy4_v2.py:2082 | within one business's directory, filings with different numbers are copied to different paths |
| Filings.DownloadFilings | wa_scraper3/wa_search_sb_local_pdf_proxy4_v2.py:2076-2238 | only the first `max_pdfs_per_business` filings are tried; the summaries are exactly those of the rows that succeed, in row order, each with its row's fields and the parse of that row's copy |
| Filings.DownloadFilingsLegacy | wa_scraper/wa_search_sb_local_pdf.py:1301-1324 | only the first `max_pdfs_per_business` filings are tried; empty filing numbers are skipped; a summary is appended exactly for each successful download, in order, with the filing number, type, date and time, effective date, path and the parse of the saved file |
| Flags.TrueIndicesSpec | wa_scraper3/wa_search_sb_local_pdf_proxy4_v2.py:2077 | the selected row indices are increasing, below the cap, and name exactly the rows whose flag is set |
| PdfText.StrippedLines | wa_scraper3/wa_search_sb_local_pdf_proxy4_v2.py:827 | one stripped line for each line of `splitlines()` |
| PdfText.LineIsSlice | wa_scraper3/wa_search_sb_local_pdf_proxy4_v2.py:827 | every stripped line occurs in the text |
| PdfText.EmailAt | wa_scraper3/wa_search_sb_local_pdf_proxy4_v2.py:852 | a match at the start of the text is a prefix of it with the shape local@domain.tld |
| PdfText.EmailSearch | wa_scraper3/wa_search_sb_local_pdf_proxy4_v2.py:852 | a search result has the e-mail shape |
| PdfText.OneAt | wa_scraper3/wa_search_sb_local_pdf_proxy4_v2.py:852-854 | an address of that shape holds exactly one `@` |
| PdfText.EmailSearchFinds | wa_scraper3/wa_search_sb_local_pdf_proxy4_v2.py:858-861 | the search finds an e-mail exactly when the pattern matches somewhere in the text |
| PdfText.EmailHasAt | wa_scraper3/wa_search_sb_local_pdf_proxy4_v2.py:851-852 | text in which an e-mail is found contains `@` |
| PdfText.LineEmailInText | wa_scraper3/wa_search_sb_local_pdf_proxy4_v2.py:847-861 | an e-mail found on a line is an e-mail match in the whole text |
| PdfText.PhoneBelow | wa_scraper3/wa_search_sb_local_pdf_proxy4_v2.py:835-844 | the phone taken from below an empty label is `PhoneBelowFrom`: the first of the next three lines that is non-empty, not an `Email:` line and holds a digit; None exactly when none of them qualifies |
| PdfText.PhoneBelowFromFirst | wa_scraper3/wa_search_sb_local_pdf_proxy4_v2.py:835-844 | the look-ahead finds nothing exactly when no line of its window is a candidate, and what it finds sits below the label |
| PdfText.PhoneOfLine | wa_scraper3/wa_search_sb_local_pdf_proxy4_v2.py:831-844 | the phone of one line is `PhoneOf`: none without the `Phone:` label, the label value when non-empty, else the look-ahead; any phone found is on the label line or a qualifying line below it |
| PdfText.PhoneScanStep | wa_scraper3/wa_search_sb_local_pdf_proxy4_v2.py:829-844 | one more line scanned keeps the phone-scan invariant |
| PdfText.EmailBelow | wa_scraper3/wa_search_sb_local_pdf_proxy4_v2.py:847-855 | the e-mail is `EmailBelowFrom`: searched on the label line and the five lines after it, the first hit wins |
| PdfText.EmailBelowFromFirst | wa_scraper3/wa_search_sb_local_pdf_proxy4_v2.py:847-855 | the look-ahead finds nothing exactly when no line of the window matches, and otherwise the match of the first line that does |
| PdfText.ScanLines | wa_scraper3/wa_search_sb_local_pdf_proxy4_v2.py:829-855 | the phone and e-mail are those of the last line that yields one (`LastSome` over `PhoneYields` and `EmailYields`); no `Phone:` line means no phone; a phone found is non-empty and sits on or below a label |
| PdfText.ScanLine | wa_scraper3/wa_search_sb_local_pdf_proxy4_v2.py:829-855 | one line of the scan keeps `Scanned`: the phone and e-mail so far are those of the last earlier line that yields one, and the phone so far is non-empty and sits on or below a label |
| PdfText.ScanPhone | wa_scraper3/wa_search_sb_local_pdf_proxy4_v2.py:831-847 | a line's phone, when it yields one, replaces the phone so far, which is then the last one yielded up to and including this line |
| PdfText.ScanEmail | wa_scraper3/wa_search_sb_local_pdf_proxy4_v2.py:849-855 | an "Email:" line whose window yields an address replaces the e-mail so far, which is always the first match on some line |
| PdfText.LastSomeIsLast | wa_scraper3/wa_search_sb_local_pdf_proxy4_v2.py:829-855 | the scan holds the value of the last line that yields one, and none exactly when no line yields one |
| PdfText.ExtractPhoneEmail | wa_scraper3/wa_search_sb_local_pdf_proxy4_v2.py:814-863 | the result is `Contact(text)`: the scan's phone, and the scan's e-mail or else the first match in the whole text; the e-mail is None exactly when the pattern matches nowhere, and otherwise holds exactly one `@`; the phone is None when no stripped line starts with `Phone:` |
| PdfText.FirstTokenIsExecutor | wa_scraper3/wa_search_sb_local_pdf_proxy4_v2.py:885-892 | a line starting `EXECUTOR ` has `EXECUTOR` as its first token |
| PdfText.ExecutorFields | wa_scraper3/wa_search_sb_local_pdf_proxy4_v2.py:888-928 | the role is `EXECUTOR`; the entity name is the first name, or first and last joined by a space; the address is None exactly when no address line lies above |
| PdfText.AddressLines | wa_scraper3/wa_search_sb_local_pdf_proxy4_v2.py:904-917 | at most three lines from the window above, none empty and none an executor line |
| PdfText.AddressLinesStep | wa_scraper3/wa_search_sb_local_pdf_proxy4_v2.py:904-917 | looking one line further up skips an empty line, stops at an executor line, and keeps a heading-like line but stops after it |
| PdfText.AddressLinesFrom | wa_scraper3/wa_search_sb_local_pdf_proxy4_v2.py:904-917 | every address line is a line of the window |
| PdfText.AddressAbove | wa_scraper3/wa_search_sb_local_pdf_proxy4_v2.py:904-919 | the backward loop with `insert(0, …)` yields the address lines in text order, joined, or None |
| PdfText.ExecutorsUpToStep | wa_scraper3/wa_search_sb_local_pdf_proxy4_v2.py:884-930 | each executor line adds one record at the end, and other lines add none |
| PdfText.ExecutorsCount | wa_scraper3/wa_search_sb_local_pdf_proxy4_v2.py:884-930 | there are exactly as many records as executor lines |
| PdfText.ExtractExecutors | wa_scraper3/wa_search_sb_local_pdf_proxy4_v2.py:865-932 | one record per line starting `EXECUTOR ` with at least three tokens, in text order |
| Grid.IdAt | wa_scraper/wa_search_sb_local.py:119-124 | a match at the start of the text is the digits of `showBusineInfo(<digits>,` |
| Grid.BusinessIdOf | wa_scraper/wa_search_sb_local.py:119-124 | a recovered BusinessID is a non-empty digit run that occurs in the cell as `showBusineInfo(<id>,` |
| Grid.BusinessIdOfCall | wa_scraper/wa_search_sb_local.py:119-124 | the first `showBusineInfo(<digits>,` in the text gives exactly those digits |
| Grid.BusinessIdOfNone | wa_scraper/wa_search_sb_local.py:119-124 | text with no such call gives None |
| Grid.RowsWithCells | wa_scraper/wa_search_sb_local.py:110-113 | rows without cells are dropped |
| Grid.RowsWithCellsMembers | wa_scraper/wa_search_sb_local.py:110-113 | a row is kept exactly when it has cells |
| Grid.ParseRows | wa_scraper/wa_search_sb_local.py:109-133 | one record per row with cells, in order, whether or not its id is found |
| Grid.FirstFilingTable | wa_scraper/wa_search_sb_local_pdf6.py:848-856 | the first table whose upper-cased header holds both `FILING NUMBER` and `FILING TYPE`, or None when none does |
| Grid.FilingsAreRows | wa_scraper/wa_search_sb_local_pdf6.py:862-873 | each filing is cells 0 to 3 of a body row with at least four cells |
| Grid.FilingsCount | wa_scraper/wa_search_sb_local_pdf6.py:862-873 | there is one filing per body row with at least four cells |
| Grid.ParseFilingHistoryTable | wa_scraper/wa_search_sb_local_pdf6.py:845-875 | the filings of the first filing-history table, or none without one |
| Grid.GovernorsName | wa_scraper/wa_search_sb_local16.py:413-422 | every governor kept names a title, entity or person |
| Grid.GovernorRowsKept | wa_scraper/wa_search_sb_local16.py:402-422 | a governor is listed exactly when some row with cells yields it and names something |
| Grid.ParseGovernors | wa_scraper/wa_search_sb_local16.py:391-423 | the header row is skipped, missing cells read as "", and rows naming nothing are dropped |
| Records.Field | wa_scraper/wa_search_sb_local_pdf.py:504-506 | `a or b`: truthy exactly when either field is, and one of the two |
| Records.Skeleton | wa_scraper/wa_search_sb_local_pdf.py:496-507 | a record exists exactly when the entry has an id; it has the five keys; the id, name, status and type are each the primary key's value when truthy and the alternative key's otherwise; UBINumber is copied |
| Records.StatusOrderAgrees | wa_scraper/wa_search_sb_local15.py:507 | the two status fallback orders agree when only one of the fields is set; when both are set each takes its own first key, so they agree exactly when the two values are equal |
| Records.AngularAgentAddress | wa_scraper/wa_search_sb_local_pdf.py:510-520 | the agent's street and mailing address are read from `FullAddress` only when the nested value is an object, and are None otherwise |
| Records.AgentFallback | wa_scraper/wa_search_sb_local_pdf.py:616-622 | the three separate `if` statements over the agent keys give the merged record |
| Records.FilledFields | wa_scraper/wa_search_sb_local_pdf.py:616-622 | a field is replaced exactly when the HTML value is falsy and the Angular value truthy; others are untouched |
| Records.FilledIdempotent | wa_scraper/wa_search_sb_local_pdf.py:616-622 | merging twice is merging once |
| Records.MissingBlockIsUnlabelled | wa_scraper/wa_search_sb_local16.py:381-388 | without an agent block the agent fields are "", as for a block without those labels |
| Json.Or | wa_scraper/wa_search_sb_local_pdf.py:513 | Python's `or` on values: truthy exactly when either operand is, and one of them |
| Navigation.Browser.Act | wa_scraper/wa_search_sb_local_pdf6.py:1591 | an action is logged and bumps exactly its own counter |
| Navigation.CloseAnyModal | wa_scraper/wa_search_sb_local_pdf6.py:1494-1514 | a visible modal is closed and waited for; nothing else is done and no counter moves |
| Navigation.WaitOutChallenge | wa_scraper/wa_search_sb_local_pdf6.py:1516-1531 | only waits, none when no challenge shows, and each wait while the challenge shows; it stops when the challenge is gone or after 300 waits |
| Navigation.PollResults | wa_scraper/wa_search_sb_local_pdf6.py:1602-1608 | only waits, at most ten, each after a poll that showed neither page; reports the results page or the AdvancedSearch page as it finds them, and gives up only after ten fruitless polls |
| Navigation.HistoryStep | wa_scraper/wa_search_sb_local_pdf6.py:1568-1608 | at most one `history.back()`, issued only off the results and AdvancedSearch pages |
| Navigation.DismissModal | wa_scraper/wa_search_sb_local_pdf6.py:1538-1541 | only closes a modal that shows |
| Navigation.LeaveDetailPage | wa_scraper/wa_search_sb_local_pdf6.py:1543-1565 | no `history.back()`; already on the results page with no modal, it succeeds doing nothing |
| Navigation.ClickBackWithCf | wa_scraper/wa_search_sb_local_pdf6.py:1425-1615 | succeeds exactly when the results page (BusinessSearch route plus one of three markers) shows; at most 3 `history.back()` calls, none on the AdvancedSearch page; a failure is AdvancedSearch or three backs spent; no navigation when the results already show |
| Navigation.NavigationStep | wa_scraper/wa_search_sb_local_pdf6.py:1359-1416 | one navigation at most, chosen in the order Filing History back, return button, `history.back()` |
| Navigation.LastResort | wa_scraper/wa_search_sb_local_pdf6.py:1390-1416 | on an unmarked page, at most one `history.back()` |
| Navigation.ClickBackWithCf3 | wa_scraper/wa_search_sb_local_pdf6.py:1241-1423 | succeeds exactly when the results grid shows; at most 3 navigation steps, each the most preferred control the page offers; stops on AdvancedSearch |
| Navigation.ClickAndAwait | wa_scraper/wa_search_sb_local_pdf.py:921-927 | one control click followed by the two waits |
| Navigation.GoBackTwice | wa_scraper/wa_search_sb_local_pdf.py:954-961 | at most two `go_back` calls |
| Navigation.ClickBackLegacy | wa_scraper/wa_search_sb_local_pdf.py:905-965 | does nothing when the results body shows; otherwise tries the return button, then the Filing History control, then the nav link; at most two `go_back` calls |
| KeywordRun.BookkeptStep | wa_scraper/wa_search_sb_local_pdf6.py:1901-1906 | recording one fetch keeps the bookkeeping: visited holds exactly the ids that produced a record, the counters add up to the fetches, and only the first fetch is flagged first |
| KeywordRun.DetailRun.Record | wa_scraper/wa_search_sb_local_pdf6.py:1901-1906 | the fetch is appended and the bookkeeping kept |
| KeywordRun.DetailRun.Visit | wa_scraper/wa_search_sb_local_pdf6.py:1882-1906 | an entry without an id, or whose id already produced a record, is skipped; otherwise it is fetched once, flagged first exactly when nothing was fetched before |
| KeywordRun.DetailRun.VisitAll | wa_scraper/wa_search_sb_local_pdf6.py:1881-1906 | the fetches are exactly those of applying Visit's rule to each entry in list order (`VisitsFrom`); at most one fetch per list entry, each for an id of the list, with the bookkeeping kept (also wa_scraper/wa_search_sb_local.py:810-828) |
| KeywordRun.VisitsBounded | wa_scraper/wa_search_sb_local_pdf6.py:1881-1906 | the loop only appends fetches, at most one per entry, each for an id of the list |
| KeywordRun.VisitsCover | wa_scraper/wa_search_sb_local_pdf6.py:1882-1906 | no entry with an id is missed: after the loop every such id has been fetched |
| KeywordRun.FlaggedDetailRun.constructor | wa_scraper/wa_search_sb_local16.py:694-695 | the first-detail flag starts true |
| KeywordRun.FlaggedDetailRun.Visit | wa_scraper/wa_search_sb_local16.py:737-758 | the flag is passed to the first fetch only and is false after it, whatever the outcome |
| KeywordRun.FlaggedDetailRun.Record | wa_scraper/wa_search_sb_local16.py:749-758 | the fetch is appended, the bookkeeping kept and the flag cleared |
| KeywordRun.ApiRun.Collect | wa_scraper/wa_search_sb_local15.py:502-534 | each entry adds one API record; the BusinessInformation is fetched only when asked and the entry has an id; the stored result is what the fetch returned for that id, numbered by the fetches before it; success needs `ok` and non-None data |
| KeywordRun.ApiRun.CollectPage | wa_scraper/wa_search_sb_local15.py:501-534 | one record per entry, in order, each holding the fetch result for its own entry's id; the detail counters do not move when fetching is off |
| KeywordRun.AppendRecord | wa_scraper/wa_search_sb_local15.py:586-593 | a new record extends the BusinessInformation-only list and the consulted count by its own contribution |
| KeywordRun.BiOnlyExact | wa_scraper/wa_search_sb_local15.py:586-593 | the BusinessInformation-only list holds exactly the records that carry the data |
| KeywordRun.SubmitForm | wa_scraper/wa_search_sb_local_pdf6.py:1741-1785 | succeeds exactly when one of the three attempts fills the form; waits `unit * attempt` after each failure; the unit is 5 here and 10 in wa_scraper/wa_search_sb_local16.py:649 and wa_scraper/wa_search_sb_local15.py:414 |
| Backfill.NamePartsExact | wa_scraper3/backfill_results.py:24-28 | a stem is accepted with a letter and keyword exactly when it is `wa_<prefix>_<letter>_<keyword>` with no `_` in prefix or letter; the keyword may hold `_` |
| Backfill.NamePartsOfStem | wa_scraper3/backfill_results.py:24-28 | the name written for a letter and keyword reads back as them |
| Backfill.NamePartsShape | wa_scraper3/backfill_results.py:24-28 | an accepted stem is the name of what was read from it |
| Backfill.ShortStemRejected | wa_scraper3/backfill_results.py:24-28 | fewer than four pieces is a mismatch |
| Backfill.CountRecords | wa_scraper3/backfill_results.py:52-55 | the loop sums `len(business_list or [])` over the pages |
| Backfill.TotalRecordsAppend | wa_scraper3/backfill_results.py:52-55 | the sum over two runs of pages is the sum of their sums |
| Backfill.ReadApiFile | wa_scraper3/backfill_results.py:42-69 | one iteration: a foreign name, blank letter or unreadable JSON contributes nothing |
| Backfill.CollectApi | wa_scraper3/backfill_results.py:42-69 | each file in turn stores its entry under its letter and keyword |
| Backfill.ApiCollectedFacts | wa_scraper3/backfill_results.py:42-69 | each API entry sits under its own letter and keyword, counts its pages' businesses and its pages, and comes from the file named for its safe keyword |
| Backfill.PdfCountExtremes | wa_scraper3/backfill_results.py:91-97 | no record counts exactly when none has PDFs, all count exactly when all have them |
| Backfill.CountPdfs | wa_scraper3/backfill_results.py:91-97 | the loop counts the records with non-empty `PDFSummaries` |
| Backfill.CollectBi | wa_scraper3/backfill_results.py:81-105 | each file in turn stores its entry under its letter and safe keyword |
| Backfill.BiCollectedSound | wa_scraper3/backfill_results.py:81-105 | `pdf_success <= details_success` in every BI entry |
| Backfill.CollectedLast | wa_scraper3/backfill_results.py:61 | a key is collected exactly when some file has it, with the value of the last such file |
| Backfill.LookupBi | wa_scraper3/backfill_results.py:119-122 | the key's own BI entry, else the one under the API entry's safe keyword, else None |
| Backfill.BiFallback | wa_scraper3/backfill_results.py:119-122 | with the fallback, the entry's detail and PDF counts are those of the safe-keyword file |
| Backfill.EntryArithmetic | wa_scraper3/backfill_results.py:124-147 | `pdf_fail + pdf_success == details_success`; `records_scraped` is the API count unless zero, else the detail count; `details_failed` is 0; files are named when they exist |
| Backfill.BuildEntries | wa_scraper3/backfill_results.py:112-149 | keys taken in strictly increasing order, each key of either source once, each entry appended to its letter's list |
| Backfill.EveryKeyHasEntry | wa_scraper3/backfill_results.py:112-149 | every key of either source has its entry in its letter's list, and each list holds only its letter's entries |
| Backfill.GroupedIsGroup | wa_scraper3/backfill_results.py:112-149 | a letter's list is exactly its keys' entries in order, and there is no list for an absent letter |
| Backfill.SortedDistinct | wa_scraper3/backfill_results.py:118 | a strictly sorted order lists no key twice |
| Backfill.Backfill | wa_scraper3/backfill_results.py:108-151 | the whole rebuild: the entries of the union of the collected keys, in sorted order, grouped by letter |
| Backfill.CollectedEntries | wa_scraper3/backfill_results.py:108-151 | every rebuilt entry keeps its key's keyword, has `pdf_fail + pdf_success == details_success` and no detail failures |
| Backfill.TrackingLists | wa_scraper3/backfill_tracking.py:105-146 | the tracking file has the same letters and, entry for entry, the results entries without letter and page count |
| Keywords.CreateKeywords | wa_scraper/create_keywords.py:19-30 | 36 files, file `f` holding the group of `CHARS[f]`, and 46656 keywords in all |
| Keywords.WriteGroup | wa_scraper/create_keywords.py:21-27 | the inner loops write the group in `product` order |
| Keywords.GroupShape | wa_scraper/create_keywords.py:16 | every keyword is three digits or capitals and starts with its file's character |
| Keywords.GroupComplete | wa_scraper/create_keywords.py:24-26 | every keyword with that first character is in the file |
| Keywords.GroupIncreasing | wa_scraper/create_keywords.py:24-26 | within a file the keywords strictly increase |
| Keywords.GroupDistinct | wa_scraper/create_keywords.py:24-26 | no keyword is written twice in a file |
| Keywords.GroupsDisjoint | wa_scraper/create_keywords.py:21-26 | two files share no keyword |
| Keywords.CharsAreCharOf | wa_scraper/create_keywords.py:16 | `CHARS` is the ten digits then the 26 capitals |
| ProxySplit.CleanLinesStripped | wa_scraper/split_local_proxies.py:7 | every cleaned line is stripped and non-empty |
| ProxySplit.SplitParts | wa_scraper/split_local_proxies.py:11-24 | exactly `num_parts` parts; part `i` has one extra line while the remainder lasts; the parts concatenate to the lines; sizes differ by at most one |
| ProxySplit.PartStartEnd | wa_scraper/split_local_proxies.py:14-24 | after the last part `start` equals the number of lines |
| ProxySplit.PartSizesBalanced | wa_scraper/split_local_proxies.py:15-18 | any two part sizes differ by at most one |
| ProxySplit.FewLines | wa_scraper/split_local_proxies.py:15-18 | with fewer lines than parts, the first parts get one line and the rest none |
| ProxySplit.SplitProxies | wa_scraper/split_local_proxies.py:1-24 | five files, each the newline-joined lines of its part, the parts concatenating to the cleaned lines |

## Left out

- Browser I/O: SeleniumBase and WebDriver calls, injected JavaScript, the AngularJS scope walk, alerts and download settings. The browser is a script from time to page; each action appends to a log and each probe reads the page at the current time, so probes within one instant see one snapshot.
- Sleeps, polling timeouts and wall-clock deadlines. A sleep is a `Wait` action. The 300-second challenge wait is a bound of 300 waits. The download poll is a given sequence of directory snapshots.
- The modal close selectors are collapsed into one `closable` observation.
- HTML and PDF parsing (BeautifulSoup, `value_next_to_label`, pdfplumber). Tables arrive as rows of cell strings, and PDFs as the text of each page.
- The network: `is_proxy_working` is the uninterpreted predicate `works`, file downloads are oracle results, and `random.choice` is an arbitrary element of the remaining set.
- The TCP relay loop, sockets, threads, and the `ProcessPoolExecutor` windows of `run_keywords_with_buffer` and `run_letter`: concurrency and I/O.
- File and JSON reading and writing, directory creation, `glob` and file mtimes. Files are given as their decoded content, and mtimes as a function.
- Python's Unicode `\w`, `\d`, `\s`, `isspace`, `isupper`, `isdigit`, `.upper()` and `.lower()` are approximated by their ASCII classes and ASCII case mapping. So `Text.HasDigit` misses non-ASCII digits such as '٣' that `str.isdigit()` accepts at wa_scraper3/wa_search_sb_local_pdf_proxy4_v2.py:842.
- Pager.Word: `re.IGNORECASE` at wa_scraper3/wa_search_sb_local_pdf_proxy4_v2.py:229-233 folds Unicode case, so 'ſ' matches 's' and 'K' (Kelvin sign) matches 'k'; the model compares ASCII-lowered text and rejects those.
- Json.Value has no floating-point number. A JSON number with a fraction or an exponent cannot be represented; the scraper only tests such fields for truthiness or copies them.
- Relay.ParseInt: accepts an optional sign and ASCII digits around white space; Python's underscores and non-ASCII digits in `int()` are not modelled.
- Base64 is modelled per section 4 of RFC 4648, on the standard alphabet with padding.
- Backfill: a `pages` value other than a list, an empty string or an empty object (`null`, a boolean, a number, a non-empty string or object) makes `for page in pages` or `page.get` raise at wa_scraper3/backfill_results.py:52-54; so do a page that is not an object, a `business_list` that is a non-zero number or `True`, or a record that is not an object makes the source raise; the model reads these as no pages, 0 records or no PDFs instead. A string or object `business_list` is counted by its length, as `len` does.
- Backfill.ApiFile: a payload is an object or unparsable (`None`); a file whose JSON is a list, string or number makes `payload.get` raise in the source and cannot be represented.
- Backfill.KeywordOf: `str()` of a non-string keyword is Python's `repr` for lists and objects; the model renders them as fixed placeholders.
- Backfill.BuildEntries: `sorted()` is modelled as repeatedly taking the least remaining key, so the order is specified, not the sort algorithm.
- Backfill: the constant fields `pages`, `rows` and `duration_sec` of each entry are left out of the entry records.
- Keywords.CreateKeywords: the files are returned as line lists; their text, paths and the progress output are left out.
- ProxySplit.SplitProxies: writing the part files and printing are left out; `num_parts` is the script's constant 5.
- Filings.PdfDest: the business's PDF directory `pdf_root` (`out_dir/pdf/<letter>/<keyword>/page_<n>/bid_<id>`, wa_scraper3/wa_search_sb_local_pdf_proxy4_v2.py:2054) is a parameter; how it is composed and created is left out.
- KeywordRun.FlaggedDetailRun.Record: the source clears the first-detail flag inside an `if`; the model assigns false unconditionally, which has the same effect.
- The detail-record parsing of `fetch_business_information_via_html` beyond the skeleton and agent fields is an oracle result (`fetch`).
- The `scrape_keyword` pager loop, page clicks and per-page counters beyond the de-duplication, counters and first-detail flag are not part of this model.
- `run_single_keyword_worker` and `run_letter`, which tie the pieces to the proxy pool and the output files, are orchestration and I/O.

## Findings

| source | as written | input that shows it | evidently intended | confidence | as-written member | corrected member |
|---|---|---|---|---|---|---|
| wa_scraper3/multi_webshare_proxy.py:209-213 | the READY message reports ports `START_PORT` to `START_PORT + len(servers) - 1` | two proxies where port 10000 cannot be bound: the only server listens on 10001, and the message reports 10000 to 10000 | report the ports of the first and last server started | not executed | Relay.ReportedRangeWrong | Relay.RunningRangeBounds |
