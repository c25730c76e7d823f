# NERDS producers, modelled in Dafny

NERDS producers turn device and monitoring data into per-host inventory
documents of the form `{"host": {"name": ..., "version": 1, <producer>: payload}}`.
Merge-on-write helpers then file each document under the output directory,
one file per host. This project models the producers' logic as Dafny
functions, methods and classes, and proves what that logic promises.

The modules follow the repository's files:

| module | models |
|---|---|
| `Py`, `Strs`, `Json`, `Xml` | Python's None and exceptions, the string operations the producers use, JSON-like data (dicts as ordered key/value sequences), and the XML DOM as a tree of elements and text nodes |
| `ElementParser` | the null-object accessor over XML nodes (`ElementParser`, `EmptyTree`), with the parent tag that `interfaces.py` calls for and `base.py` does not define |
| `InterfaceParser`, `BgpParser`, `ChassisParser`, `RouterParser` | the juniper_conf parsers: interfaces reconciled with a whitelist, BGP peerings flattened from group onto neighbour, nested chassis modules, and the router assembler with logical-system pruning and host name normalisation |
| `JuniperModels` | the Router, Interface, BgpPeering, Chassis and ChassisModule records and their `to_json` serialisers |
| `LegacyJuniperConf` | the older monolithic `parse` of `juniper_conf.py` |
| `RemoteSource` | `RemoteSource._strip_before` |
| `NsoUtils`, `NsoJunos`, `NsoArista` | dotted-path lookup and recursive key search over NSO JSON, and the Junos and Arista extractors |
| `JarchiveJuniper`, `JarchiveArista`, `Sniff` | the brace-structured Junos text parser, the Arista configuration parser, their host name readers and the file sniffers |
| `Nerds`, `ListConverter` | the `to_nerds` envelope and the ssh_cmd list converter |
| `NerdsStore`, `NerdsFile`, `UtilsFile`, `SshFile` | the output directory as an in-memory map from file name to stored document, and the three merge-on-write helpers over it |
| `Grouping` | grouping keyed values into per-key lists in arrival order, shared by the grouping producers |
| `AlcatelIsis`, `CsvProducer`, `CfengineReport`, `CheckmkLivestatus`, `NagiosxiApi`, `NmapServicesPy`, `RaritanSnmp`, `NunocCosmos` | the IS-IS database state machine, the two CSV readers, the per-host grouping of checkmk and NagiosXI rows, the nmap document and merge, the Raritan SNMP-walk matcher, and `clean_name` |

Loops in the source become methods with loop invariants, proved against
fold-style specification functions. Objects updated in place become
classes or an in-memory store (`NerdsStore.Directory`). Python exceptions
become `Err` values of a `Result`.

## Model

| member | source | states |
|---|---|---|
| AlcatelIsis.DropLastSegmentSpec | producers/alcatel_isis/alcatel_isis.py:210 | `'.'.join(name.split('.')[:-1])` removes the last dot and what follows it, and gives "" for a name without a dot |
| AlcatelIsis.FullOsi | producers/alcatel_isis/alcatel_isis.py:128-132 | the full NSAP address (area id, system id, selector) has no dots left in it |
| AlcatelIsis.OsiIndex | producers/alcatel_isis/alcatel_isis.py:131-134 | the scan stops at the first item whose osi_address equals the address; every item before it has a different osi_address; a missing osi_address met first raises KeyError |
| AlcatelIsis.LookupOsiFirst | producers/alcatel_isis/alcatel_isis.py:121-134 | lookup_osi returns the first matching mapping item, None exactly when every item has an osi_address and none matches, and KeyError when an item without osi_address comes before any match |
| AlcatelIsis.AddMissingSpec | producers/alcatel_isis/alcatel_isis.py:143-145 | appending the new node's missing neighbours keeps the old list as a prefix, ends with exactly the old and the new neighbours, and adds no duplicate |
| AlcatelIsis.Merge | producers/alcatel_isis/alcatel_isis.py:136-145 | merge_nodes keeps the number, the order and the names of the nodes |
| AlcatelIsis.MergeSpec | producers/alcatel_isis/alcatel_isis.py:141-145 | after merge_nodes a node keeps its name, data and old neighbours in order, and a node equal by name to the new node holds every neighbour of the new node; other nodes are unchanged |
| AlcatelIsis.MergeNodes | producers/alcatel_isis/alcatel_isis.py:136-145 | the loop over node_list ends in the state Merge describes |
| AlcatelIsis.TextTokens | producers/alcatel_isis/alcatel_isis.py:104-108 | normalize_whitespace keeps the tokens of a line, and gives "" exactly when the line has no tokens |
| AlcatelIsis.ProcessIsisOutput | producers/alcatel_isis/alcatel_isis.py:188-237 | the loop over the lines returns what the fold ProcessIsis computes, including its exceptions |
| AlcatelIsis.IgnoredLine | producers/alcatel_isis/alcatel_isis.py:195-203 | a blank line and a line starting with IS-IS, LSPID, Area, NLPID: or IP changes nothing |
| AlcatelIsis.MetricLine | producers/alcatel_isis/alcatel_isis.py:204-217 | a Metric: line with fewer than four tokens raises IndexError; with no open node or metric "0" only `name` changes; otherwise the open node gains at most one neighbour |
| AlcatelIsis.MetricGrows | producers/alcatel_isis/alcatel_isis.py:207-217 | a Metric: line never changes the stored nodes and only extends the open node's neighbour list by one neighbour with that metric |
| AlcatelIsis.HostnameLine | producers/alcatel_isis/alcatel_isis.py:218-220 | a Hostname: line renames the open node to its second token and changes nothing else |
| AlcatelIsis.HeaderLine | producers/alcatel_isis/alcatel_isis.py:221-236 | any other line stores the open node (merged or appended), then opens a node named by its first token minus the last dot segment, or none when that name is empty |
| AlcatelIsis.ClosedStoresOpen | producers/alcatel_isis/alcatel_isis.py:222-232 | closing a node stores a node of its name after the nodes already stored |
| AlcatelIsis.StoreDistinct | producers/alcatel_isis/alcatel_isis.py:228-231 | storing a node by merge-or-append keeps the stored names distinct |
| AlcatelIsis.ResultDistinct | producers/alcatel_isis/alcatel_isis.py:197-237 | the node names in the result are pairwise distinct |
| AlcatelIsis.NoNameError | producers/alcatel_isis/alcatel_isis.py:222-224 | the lookup when a node closes never reads an unassigned `name` |
| AlcatelIsis.OpenNodeDropped | producers/alcatel_isis/alcatel_isis.py:235-237 | lines that open no new node store nothing, so the node open at the end of the input never reaches the result |
| AlcatelIsis.MappedName | producers/alcatel_isis/alcatel_isis.py:64-68 | a node whose NSAP lookup found a mapping item is written under that item's name |
| BgpParser.PeeringCount | producers/juniper_conf/parsers/bgp.py:11-24 | parse returns exactly one peering per <neighbor>, summed over all groups |
| BgpParser.GroupInOrder | producers/juniper_conf/parsers/bgp.py:11-24 | the peerings come group by group in document order; a group without neighbours contributes none |
| BgpParser.GroupFields | producers/juniper_conf/parsers/bgp.py:12-23 | each peering carries its group's name, type and local-address and its neighbour's name, description and peer-as, None where the element is absent |
| BgpParser.NoBgpNoPeerings | producers/juniper_conf/parsers/bgp.py:9 | a tree without <bgp> elements gives no peerings |
| BgpParser.ParseBgp | producers/juniper_conf/parsers/bgp.py:7-26 | the two nested loops return what Parse specifies |
| BgpParser.GroupLoop | producers/juniper_conf/parsers/bgp.py:16-24 | the inner loop appends one peering per neighbour of the group, in order |
| CfengineReport.ReadReportLoop | producers/cfengine_report/cfengine_report.py:45-60 | the read loop returns the host dict that ReadReport specifies, including the IndexError of a short line |
| CfengineReport.HostRowSpec | producers/cfengine_report/cfengine_report.py:51-57 | a line raises IndexError exactly when it has fewer fields than the header; otherwise its host is the first field and every stored key is a header column's key with a non-empty value |
| CfengineReport.HostRowColumns | producers/cfengine_report/cfengine_report.py:53-57 | with distinct column keys, a column's non-empty normalised value is stored under the column's lower-cased, underscored key, and an empty one leaves the key out |
| CfengineReport.ReportSpec | producers/cfengine_report/cfengine_report.py:49-58 | the hosts are exactly the first fields of the lines, and each host's list holds its lines' dicts in line order |
| CfengineReport.ReportCount | producers/cfengine_report/cfengine_report.py:58 | every line read lands in exactly one host's list |
| ChassisParser.ModuleChildren | producers/juniper_conf/parsers/chassis.py:42-43 | the module children are exactly the direct children whose name contains "-module" |
| ChassisParser.SubModulesSpec | producers/juniper_conf/parsers/chassis.py:42-43 | sub_modules holds one module per module child, in child order |
| ChassisParser.NoSubModules | producers/juniper_conf/parsers/chassis.py:42-43 | a module without module children has no sub-modules |
| ChassisParser.ModuleFieldMissing | producers/juniper_conf/parsers/chassis.py:34-41 | a module field whose tag occurs nowhere below the module is None |
| ChassisParser.ParseAll | producers/juniper_conf/parsers/chassis.py:14-15 | parseAll returns one chassis per <chassis> element |
| ChassisParser.ParseAllSpec | producers/juniper_conf/parsers/chassis.py:8-15 | parseAll builds the chassis of each <chassis> element in document order, and parse returns the first of them when there is one |
| ChassisParser.ParseMissing | producers/juniper_conf/parsers/chassis.py:12-13 | without a <chassis> element parse returns a chassis with None name, serial number and description and no modules |
| ChassisParser.ModulesSpec | producers/juniper_conf/parsers/chassis.py:25 | modules holds one module per <chassis-module> below the chassis, in document order |
| ChassisParser.NamedModule | producers/juniper_conf/parsers/chassis.py:33-43 | a module whose first child is <name>t</name> is named t, and its sub-modules come from the children after it |
| CheckmkLivestatus.Shorter | producers/checkmk_livestatus/checkmk_livestatus.py:70 | zip pairs as many items as the shorter of columns and row |
| CheckmkLivestatus.ZipDistinct | producers/checkmk_livestatus/checkmk_livestatus.py:70 | the dict built from zip(columns, row) has distinct keys |
| CheckmkLivestatus.ZipKeys | producers/checkmk_livestatus/checkmk_livestatus.py:70 | a name is a key of the dict exactly when it is one of the columns zip pairs with a row item |
| CheckmkLivestatus.ZipLast | producers/checkmk_livestatus/checkmk_livestatus.py:70 | a column holds its own row item when no later paired column repeats its name (later pairs overwrite) |
| CheckmkLivestatus.RowEntrySpec | producers/checkmk_livestatus/checkmk_livestatus.py:70-87 | a row raises KeyError for host_name, then host_alias, then host_address when missing and TypeError for an unhashable host name; otherwise its check is its dict without those three keys |
| CheckmkLivestatus.Document | producers/checkmk_livestatus/checkmk_livestatus.py:72-83 | the default document has the single top-level key "host" |
| CheckmkLivestatus.DocumentSpec | producers/checkmk_livestatus/checkmk_livestatus.py:73-75 | the document is named after its host and has version 1 |
| CheckmkLivestatus.Visit | producers/checkmk_livestatus/checkmk_livestatus.py:70-88 | one pass of the loop raises the row's error or applies the setdefault-then-append step to the host dict |
| CheckmkLivestatus.NerdsFormatLoop | producers/checkmk_livestatus/checkmk_livestatus.py:62-89 | the loop over the rows returns what NerdsFormat specifies |
| CheckmkLivestatus.CollectGroups | producers/checkmk_livestatus/checkmk_livestatus.py:71-88 | a host has a document exactly when some row names it; the document holds the checks of that host's rows in row order |
| CheckmkLivestatus.CollectFirst | producers/checkmk_livestatus/checkmk_livestatus.py:71-84 | setdefault keeps the first document: alias and address come from the first row naming the host |
| CheckmkLivestatus.NerdsFormatError | producers/checkmk_livestatus/checkmk_livestatus.py:69-87 | nerds_format raises the error of the first row that raises |
| CheckmkLivestatus.NerdsFormatOk | producers/checkmk_livestatus/checkmk_livestatus.py:69-88 | nerds_format succeeds exactly when no row raises, with one entry per row |
| CheckmkLivestatus.NerdsFormatGroups | producers/checkmk_livestatus/checkmk_livestatus.py:68-89 | one document per distinct host name, named after it, holding its rows' checks in row order |
| CheckmkLivestatus.NerdsFormatFirstRow | producers/checkmk_livestatus/checkmk_livestatus.py:71-84 | a host's alias and address come from its first row |
| CheckmkLivestatus.NerdsFormatEveryRow | producers/checkmk_livestatus/checkmk_livestatus.py:88 | every row is a check of exactly one document |
| CsvProducer.CsvNormalizeSpec | producers/csv_producer/csv_producer.py:41-46 | normalize_whitespace leaves no quote, keeps exactly the tokens of the line with its quotes deleted, leaves single spaces between tokens and none at the ends, and is idempotent |
| CsvProducer.CsvNormalizeEmpty | producers/csv_producer/csv_producer.py:41-46 | a blank line normalises to "", which ends the read loop |
| CsvProducer.KeyForm | producers/csv_producer/csv_producer.py:56 | the key of a normalised header field is the field lower-cased with each space turned into '_', and holds no whitespace |
| CsvProducer.FieldsOfNormalized | producers/csv_producer/csv_producer.py:50 | every field of a normalised header line has no quote and no whitespace but ' ' |
| CsvProducer.LastKept | producers/csv_producer/csv_producer.py:55-59 | the position of the last column with this key whose value the loop stores, or -1 when there is none |
| CsvProducer.FoldSpec | producers/csv_producer/csv_producer.py:55-59 | a key is in the row dict exactly when some column with that key is stored, and holds the value of the last such column |
| CsvProducer.FoldDistinct | producers/csv_producer/csv_producer.py:55-59 | with distinct keys, a stored column's value is under its key and a dropped column's key is absent |
| CsvProducer.RowDict | producers/csv_producer/csv_producer.py:55-57 | a row raises IndexError exactly when it has fewer fields than the header |
| CsvProducer.RowDictColumns | producers/csv_producer/csv_producer.py:55-59 | with distinct keys, each column's normalised value is stored under its key unless it is empty and empty_keys is false, in which case the key is absent |
| CsvProducer.RowKeysFromHeader | producers/csv_producer/csv_producer.py:55-59 | every key of a row comes from a header field, and without empty_keys no stored value is empty |
| CsvProducer.ExtraFieldsIgnored | producers/csv_producer/csv_producer.py:55 | fields beyond the header's length are ignored |
| CsvProducer.BuildRow | producers/csv_producer/csv_producer.py:54-59 | the inner for loop builds the dict RowDict specifies, or raises its IndexError |
| CsvProducer.NextLine | producers/csv_producer/csv_producer.py:51 | each readline returns the next normalised line, and "" past the end of the file |
| CsvProducer.ReadHeader | producers/csv_producer/csv_producer.py:50 | the first readline, normalised and split at the delimiter, is the header |
| CsvProducer.ParseLine | producers/csv_producer/csv_producer.py:53-59 | one pass of the while loop splits the line at the delimiter and builds its dict |
| CsvProducer.ReadCsvLoop | producers/csv_producer/csv_producer.py:48-62 | the while loop returns what ReadCsv specifies, including a short row's IndexError |
| CsvProducer.StopsAtBlank | producers/csv_producer/csv_producer.py:52 | reading stops at the first blank line: nothing after it matters |
| CsvProducer.RowsInOrder | producers/csv_producer/csv_producer.py:52-61 | each line before the first blank one yields one dict, in line order, and reading ends at the end of the file or at a blank line |
| ElementParser.AllAt | producers/juniper_conf/parsers/base.py:27-32 | the i-th accessor of all(tag) wraps the i-th element getElementsByTagName finds |
| ElementParser.AllSpec | producers/juniper_conf/parsers/base.py:27-32 | all(tag) finds exactly the elements strictly below the node that carry the tag ("*" for every element), in document order |
| ElementParser.FirstSpec | producers/juniper_conf/parsers/base.py:17-26 | first(tag) is EmptyTree exactly when no element below carries the tag; otherwise it wraps the first such element in document order, which lies strictly below the node |
| ElementParser.EmptyAbsorbs | producers/juniper_conf/parsers/base.py:34-41 | every all/first chain from EmptyTree stays EmptyTree, with no children and text None |
| ElementParser.FirstMissing | producers/juniper_conf/parsers/base.py:22-26 | when nothing below carries the tag, first(tag) is EmptyTree and `first(..).first(..).text()` is None |
| ElementParser.TextOfBlank | producers/juniper_conf/parsers/base.py:15-16 | text() of an element without text children is None, not "" as the docstring shows |
| Grouping.MembersSnoc | producers/cfengine_report/cfengine_report.py:58 | appending a value under a key extends that key's list at the end and leaves every other list alone |
| Grouping.GroupSnoc | producers/cfengine_report/cfengine_report.py:58 | `hosts[k].append(v)` on a defaultdict(list) creates the list when the key is new and extends it otherwise |
| Grouping.FirstKeysSpec | producers/cfengine_report/cfengine_report.py:49-58 | the keys in order of first appearance are distinct and are exactly the keys that received a value |
| Grouping.GroupSpec | producers/cfengine_report/cfengine_report.py:49-58 | the dict of lists has a list for exactly the keys that occur, and each list is that key's values in arrival order |
| Grouping.EveryValueOnce | producers/cfengine_report/cfengine_report.py:58 | every value lands in exactly one list: the lists together hold as many values as were appended |
| Grouping.TryAllStop | producers/checkmk_livestatus/checkmk_livestatus.py:69-88 | a loop whose body raises stops with the error of the first item that raises |
| Grouping.TryAllOk | producers/checkmk_livestatus/checkmk_livestatus.py:69-88 | when no item raises the loop gives one value per item, in order |
| Grouping.TryAllAllOk | producers/checkmk_livestatus/checkmk_livestatus.py:69-88 | when the loop gets through no item raised |
| Grouping.FirstErrSpec | producers/nagiosxi_api/nagiosxi_api.py:70-77 | the loop gets through exactly when it reaches the end, and otherwise raises the error of the item where it stops |
| InterfaceParser.NameList.Remove | producers/juniper_conf/parsers/interfaces.py:22 | physicalInterfaces.remove(name) drops the first occurrence of the name from the caller's list, in place |
| InterfaceParser.RemoveFirstSpec | producers/juniper_conf/parsers/interfaces.py:22 | removing a name the list holds takes away one occurrence of it and keeps every other element |
| InterfaceParser.ExtractSpec | producers/juniper_conf/parsers/interfaces.py:13-34 | a kept interface is named by its <name> text, carries its bundle and description texts (None when absent), exactly one tunnel entry with source and destination, and one unit entry per <unit> in document order |
| InterfaceParser.UnitSpec | producers/juniper_conf/parsers/interfaces.py:43-49 | a unit entry holds the unit's name, its description and vlan-id texts (None when absent), and as its j-th address the name text of the unit's j-th <address> |
| InterfaceParser.VlanTaggingSpec | producers/juniper_conf/parsers/interfaces.py:24 | vlantagging is True exactly when some element below the interface is a <vlan-tagging> |
| InterfaceParser.FlattenSource | producers/juniper_conf/parsers/interfaces.py:6-9 | an interface element is taken only from an <interfaces> element whose parent is <configuration> |
| InterfaceParser.BareSpec | producers/juniper_conf/parsers/interfaces.py:36-39 | each name left on the whitelist becomes an Interface with only its name set |
| InterfaceParser.ExhaustedKeepsAll | producers/juniper_conf/parsers/interfaces.py:15 | once the whitelist is empty every later interface is kept, unfiltered and in order |
| InterfaceParser.ParseNoWhitelist | producers/juniper_conf/parsers/interfaces.py:5-41 | without a whitelist every configured interface is kept, in document order, and nothing is appended |
| InterfaceParser.WhitelistExhausted | producers/juniper_conf/parsers/interfaces.py:15-22 | the moment the whitelist runs out, the remaining interfaces pass unfiltered |
| InterfaceParser.WhitelistConservation | producers/juniper_conf/parsers/interfaces.py:15-22 | each kept interface uses up one whitelisted occurrence of its name, so kept names and leftover names together are exactly the original whitelist |
| InterfaceParser.StepFilter | producers/juniper_conf/parsers/interfaces.py:15-22 | under a non-empty whitelist an interface whose name is not on it is skipped, and a kept one removes its name |
| InterfaceParser.ParseInterfaces | producers/juniper_conf/parsers/interfaces.py:5-41 | parse returns what Parse specifies and leaves the caller's whitelist with the names not used up |
| InterfaceParser.KeepConfigured | producers/juniper_conf/parsers/interfaces.py:11-35 | the first loop ends in the state of the whitelist fold over the configured interfaces |
| InterfaceParser.Visit | producers/juniper_conf/parsers/interfaces.py:12-35 | one pass of the first loop skips the interface or keeps it and removes its name from the whitelist |
| InterfaceParser.AppendBare | producers/juniper_conf/parsers/interfaces.py:36-39 | the second loop appends one bare interface per leftover name |
| JarchiveArista.ParseFrom | producers/jarchive/parsers/arista.py:2-30 | the loop never gives back more lines than it was handed |
| JarchiveArista.ParseBlock | producers/jarchive/parsers/arista.py:2-30 | parse over an iterator of lines, recursing into each block on the same iterator, returns the dict and the lines left that ParseFrom specifies over the lines' kinds, or its exception |
| JarchiveArista.BangEndsBlock | producers/jarchive/parsers/arista.py:6-10 | "!" ends a nested block and leaves the lines after it to the caller; at the top level it is a comment |
| JarchiveArista.SetStores | producers/jarchive/parsers/arista.py:19-29 | a setting stores its string under its key, overwriting an earlier value |
| JarchiveArista.BlockStores | producers/jarchive/parsers/arista.py:12-17 | a block line parses the following lines as a nested block and stores it under data[key][name], creating the group dict when the key is new and keeping its other entries |
| JarchiveArista.BadFails | producers/jarchive/parsers/arista.py:13 | a vlan or interface line that does not split into exactly two tokens raises ValueError |
| JarchiveArista.BlockStep | producers/jarchive/parsers/arista.py:15-17 | when the group under key is not a dict the assignment raises TypeError; otherwise the nested block goes under name |
| JarchiveArista.BlockFails | producers/jarchive/parsers/arista.py:17 | an exception inside a nested block ends the whole parse with it |
| JarchiveArista.HostnameLine | producers/jarchive/parsers/arista.py:19-20 | "hostname h" stores h under "hostname" |
| JarchiveArista.DomainLine | producers/jarchive/parsers/arista.py:21-22 | "ip domain-name d" stores d under "domain-name" |
| JarchiveArista.AddressLine | producers/jarchive/parsers/arista.py:23-24 | "ip address a" stores a under "ip-address" |
| JarchiveArista.InterfaceLine | producers/jarchive/parsers/arista.py:12-17 | "interface X" opens a block stored under "interfaces", then X |
| JarchiveArista.VlanLine | producers/jarchive/parsers/arista.py:12-17 | "vlan X" opens a block stored under "vlans", then X |
| JarchiveArista.InterfaceLineTooLong | producers/jarchive/parsers/arista.py:13 | an interface line with a third token raises ValueError |
| JarchiveArista.DescriptionLine | producers/jarchive/parsers/arista.py:25-29 | `description "v"` stores v, quotes dropped, under "description" |
| JarchiveArista.DescriptionRule | producers/jarchive/parsers/arista.py:25-29 | split(' ', 1) gives the key and the value, and a value starting with a quote loses its first and last characters |
| JarchiveArista.BangLine | producers/jarchive/parsers/arista.py:6-8 | "!" is the line that ends a block |
| JarchiveArista.ExampleParse | producers/jarchive/parsers/arista.py:2-30 | a small configuration parses into hostname, domain-name and an interfaces block with its description, and its host name is qualified by the domain |
| JarchiveArista.GetHostname | producers/jarchive/parsers/arista.py:47-52 | a missing hostname or domain-name raises KeyError; the name is the hostname, followed by "." and the domain when that is truthy |
| JarchiveArista.HostnameQualified | producers/jarchive/parsers/arista.py:50-51 | with a domain name the host name is qualified by it |
| JarchiveArista.HostnameBare | producers/jarchive/parsers/arista.py:50 | an empty domain name leaves the host name bare |
| JarchiveArista.IsArista | producers/jarchive/parsers/arista.py:33-44 | is_ariasta is True when one of the first six lines starts with "!", False when a seventh line is reached first, None when the lines run out |
| JarchiveArista.CommentIsArista | producers/jarchive/parsers/arista.py:40-43 | a configuration that opens with a comment line is recognised, whatever follows |
| JarchiveJuniper.ParseFrom | producers/jarchive/parsers/juniper.py:2-29 | the loop never gives back more lines than it was handed |
| JarchiveJuniper.ParseBlock | producers/jarchive/parsers/juniper.py:2-29 | parse over an iterator of lines, recursing into each "{" block on the same iterator, returns the dict and the lines left that ParseFrom specifies |
| JarchiveJuniper.SemiLine | producers/jarchive/parsers/juniper.py:11-24 | a line ending with ';' is split at its first space: one part stores True, two parts store the value |
| JarchiveJuniper.ClassifySemi | producers/jarchive/parsers/juniper.py:11-24 | the branch a stripped line ending with ';' takes |
| JarchiveJuniper.TrueLine | producers/jarchive/parsers/juniper.py:14-16 | a "k;" line stores True under k |
| JarchiveJuniper.StrLine | producers/jarchive/parsers/juniper.py:22-24 | a `k "v";` line stores v under k |
| JarchiveJuniper.OpenLine | producers/jarchive/parsers/juniper.py:25-28 | a "k {" line opens a block stored under k |
| JarchiveJuniper.ClassifyOpen | producers/jarchive/parsers/juniper.py:25-28 | a stripped line ending with '{' opens a block under the words before the brace |
| JarchiveJuniper.CloseLine | producers/jarchive/parsers/juniper.py:9-10 | a line ending with '}' closes the block |
| JarchiveJuniper.StepSkip | producers/jarchive/parsers/juniper.py:6-8 | comments and other lines change nothing |
| JarchiveJuniper.StepLeaf | producers/jarchive/parsers/juniper.py:11-24 | a leaf puts its value under its key |
| JarchiveJuniper.StepOpen | producers/jarchive/parsers/juniper.py:25-28 | a block puts the dict its lines give under its key |
| JarchiveJuniper.StepClose | producers/jarchive/parsers/juniper.py:9-10 | a closing brace ends the block and returns the dict |
| JarchiveJuniper.KindsRender | producers/jarchive/parsers/juniper.py:5-28 | the rendered text of a tree is classified line by line as the tree's kinds |
| JarchiveJuniper.ParseRender | producers/jarchive/parsers/juniper.py:2-29 | parsing a tree's kinds followed by the end or a closing brace puts the tree's entries into the dict in order and consumes the brace |
| JarchiveJuniper.ParseRenderRoundTrip | producers/jarchive/parsers/juniper.py:2-29 | parse reads the text of a tree back as the same tree |
| JarchiveJuniper.RepeatedKeyLast | producers/jarchive/parsers/juniper.py:15-28 | a key written twice in a block keeps the value of its last line |
| JarchiveJuniper.GetHostname | producers/jarchive/parsers/juniper.py:32-44 | a missing system block raises KeyError, and a name is found only when system is there |
| JarchiveJuniper.HostnameFromSystem | producers/jarchive/parsers/juniper.py:33-43 | the system block's own host-name wins, followed by "." and the domain-name when there is one |
| JarchiveJuniper.HostnameFromGroups | producers/jarchive/parsers/juniper.py:35-37 | without a host-name in system the one under groups.re0.system is used |
| JarchiveJuniper.HostnameMissing | producers/jarchive/parsers/juniper.py:38-39 | without either host-name the result is None |
| JarchiveJuniper.HostnameRe0 | producers/jarchive/parsers/juniper.py:40-41 | "h-re0" becomes "h" for any h that does not itself contain "-re0" |
| JarchiveJuniper.HostnameNotString | producers/jarchive/parsers/juniper.py:40-41 | a boolean or integer host-name raises TypeError at the `'re0' in hostname` test; a list holding 're0' or a block with an re0 key raises AttributeError at `.replace` |
| JarchiveJuniper.HostnameIntDomain | producers/jarchive/parsers/juniper.py:42-43 | a non-zero integer domain-name is appended in decimal after "." |
| JarchiveJuniper.IsJuniper | producers/jarchive/parsers/juniper.py:47-57 | is_juniper is True when one of the first six lines starts with "version", False when a seventh line is reached first, None when the lines run out |
| JarchiveJuniper.RenderIsJuniper | producers/jarchive/parsers/juniper.py:54-56 | the text of a tree whose first entry is its version is recognised as a Junos configuration |
| Json.IndexOf | producers/checkmk_livestatus/checkmk_livestatus.py:71 | the position found is the first entry with the key, or the end when no entry has it |
| Json.Get | producers/jarchive/parsers/juniper.py:33-34 | d.get(k) has a value exactly when the key is present, and that value is stored under k |
| Json.PutIndex | producers/checkmk_livestatus/checkmk_livestatus.py:88 | `d[k] = v` overwrites the entry of k in place, or appends a new entry at the end |
| Json.PutGet | producers/jarchive/parsers/arista.py:20 | after `d[k] = v`, k reads v and every other key reads what it read before |
| Json.PutPut | producers/jarchive/parsers/arista.py:20 | assigning a key twice keeps only the second value |
| Json.PutKeys | producers/jarchive/parsers/juniper.py:24 | assignment keeps the order of the keys and appends a new key at the end |
| Json.PutSpec | producers/nerds_utils/nerds.py:11 | on a dict with distinct keys, assignment makes k read v, leaves every other key alone, adds no key but k and keeps the keys distinct |
| Json.PutDistinct | producers/nerds_utils/nerds.py:11 | assignment keeps a dict's keys distinct |
| Json.Del | producers/checkmk_livestatus/checkmk_livestatus.py:85-87 | `del d[k]` keeps exactly the entries with other keys |
| Json.DelGet | producers/checkmk_livestatus/checkmk_livestatus.py:85-87 | after `del d[k]` the key is gone and every other key reads what it read before |
| Json.DelDistinct | producers/checkmk_livestatus/checkmk_livestatus.py:85-87 | deleting keeps a dict's keys distinct |
| Json.GetUpdate | producers/alcatel_isis/alcatel_isis.py:226 | after `d.update(g)` every key of g reads g's value and every other key reads what it read before |
| Json.GetUpdateLast | producers/alcatel_isis/alcatel_isis.py:226 | a key repeated in g reads the value of its last entry |
| Json.UpdateIdempotent | producers/utils/file.py:14 | updating twice with the same dict is updating once |
| Json.UpdateFresh | producers/utils/file.py:14 | updating with new, distinct keys appends them in order |
| Json.PairSpec | producers/nerds_utils/nerds.py:3-8 | the literal {a: x, b: y} with distinct keys has keys a, b in order, reading x and y |
| JuniperModels.InterfaceJsonRoundTrip | producers/juniper_conf/models/models.py:32-42 | Interface.to_json has exactly its seven keys in order and the interface can be read back from it |
| JuniperModels.BgpJsonRoundTrip | producers/juniper_conf/models/models.py:54-56 | BgpPeering.to_json has the six attribute keys and the peering can be read back from it |
| JuniperModels.ModuleJsonRoundTrip | producers/juniper_conf/models/chassis.py:26-29 | ChassisModule.to_json loses nothing at any depth of sub-modules |
| JuniperModels.ModulesJsonRoundTrip | producers/juniper_conf/models/chassis.py:28 | a list of modules serialised item by item can be read back |
| JuniperModels.ChassisJsonRoundTrip | producers/juniper_conf/models/chassis.py:9-12 | the dict the corrected Chassis.to_json returns can be read back as the chassis |
| JuniperModels.DecodeInterfaces | producers/juniper_conf/models/models.py:12 | the serialised interface list reads back as the interfaces |
| JuniperModels.DecodeBgps | producers/juniper_conf/models/models.py:13 | the serialised peering list reads back as the peerings |
| JuniperModels.RouterJsonRoundTrip | producers/juniper_conf/models/models.py:10-16 | Router.to_json loses nothing: interfaces, peerings in order and the hardware when attached are recovered from it; the hardware is serialised with the corrected Chassis.to_json (see Findings), where the source calls the aliasing one |
| JuniperModels.ChassisObject.ToJsonAsWritten | producers/juniper_conf/models/chassis.py:9-12 | to_json as written returns the object's own attribute dict with its modules replaced by their serialisations; a second call raises AttributeError |
| JuniperModels.ChassisObject.ToJson | producers/juniper_conf/models/chassis.py:9-12 | the corrected to_json returns a fresh dict that serialises the chassis and leaves the object as it was |
| JuniperModels.ModulesOf | producers/juniper_conf/models/chassis.py:11 | the modules attribute reads back as module objects exactly when no slot holds a serialised dict |
| JuniperModels.RenameAfterToJsonAsWritten | producers/juniper_conf/models/test_chassis.py:28-32 | as written, renaming the returned dict renames the chassis, and a second to_json raises |
| JuniperModels.RenameAfterToJson | producers/juniper_conf/models/test_chassis.py:28-32 | with the corrected to_json the chassis keeps its name, the returned dict is renamed, and a second call gives the same result |
| LegacyJuniperConf.FirstChild | producers/juniper_conf/juniper_conf.py:66-70 | get_firstchild has a value only when some element below carries the tag |
| LegacyJuniperConf.AddressNames | producers/juniper_conf/juniper_conf.py:147-150 | a unit's address loop yields one name per address, or aborts on a nameless one |
| LegacyJuniperConf.UnitsFoldState | producers/juniper_conf/juniper_conf.py:133-152 | after the unit loop there is one entry per unit, and the carried temporaries hold the last description and vlan-id seen |
| LegacyJuniperConf.UnitsFoldAt | producers/juniper_conf/juniper_conf.py:137-152 | each unit entry names its unit, lists its addresses, and carries the description and vlan-id of the nearest unit at or before it that has them |
| LegacyJuniperConf.UnitsAt | producers/juniper_conf/juniper_conf.py:137-152 | the same entry facts, read on the unit elements |
| LegacyJuniperConf.BuildInterfaceSpec | producers/juniper_conf/juniper_conf.py:105-152 | vlantagging is True exactly when a vlan-tagging element lies below; a missing description becomes the fix-me text; a tunnel entry exists exactly when source and destination both have text |
| LegacyJuniperConf.IfacesFiltered | producers/juniper_conf/juniper_conf.py:104 | no emitted interface has '.', 'lo', 'all' or '*' in its name, and at most one is emitted per element |
| LegacyJuniperConf.Hostname | producers/juniper_conf/juniper_conf.py:75-89 | with no host-name element the lookup raises IndexError |
| LegacyJuniperConf.HostnameEmpty | producers/juniper_conf/juniper_conf.py:82-86 | a host-name element without text ends the run |
| LegacyJuniperConf.NoInterfacesElement | producers/juniper_conf/juniper_conf.py:92-98 | without an <interfaces> element the router has no interfaces |
| LegacyJuniperConf.ParseFiltered | producers/juniper_conf/juniper_conf.py:98-154 | every interface of a parsed router passed the name filter |
| LegacyJuniperConf.HostnamePlain | producers/juniper_conf/juniper_conf.py:88-90 | a name without "re0" or "re1" is kept as it is |
| LegacyJuniperConf.AddressLoop | producers/juniper_conf/juniper_conf.py:147-150 | the address loop returns what AddressNames specifies |
| LegacyJuniperConf.UnitLoop | producers/juniper_conf/juniper_conf.py:132-152 | the unit loop returns the entries of the unit fold, or its error |
| LegacyJuniperConf.ParseLegacy | producers/juniper_conf/juniper_conf.py:72-155 | parse as written returns what Parse specifies |
| LegacyJuniperConf.InterfaceLoop | producers/juniper_conf/juniper_conf.py:98-153 | the interface loop, with its carried temp, returns the interface fold |
| LegacyJuniperConf.VisitInterface | producers/juniper_conf/juniper_conf.py:99-153 | one pass of the interface loop updates temp and builds the interface when its name passes the filter |
| LegacyJuniperConf.UnitRoundTrip | producers/juniper_conf/juniper_conf.py:152 | a unit entry can be read back from its dict |
| LegacyJuniperConf.InterfaceJsonRoundTrip | producers/juniper_conf/juniper_conf.py:60-64 | Interface.to_json has exactly the keys name, bundle, desc, vlantagging, tunnels and units, and loses nothing |
| ListConverter.ToNerds | producers/ssh_cmd/converters/list_converter.py:1-8 | the document has the single key host; its dict reads the value under the producer name, and the host name and version 1 unless the producer name overwrites them; it holds no other key |
| ListConverter.ListToHosts | producers/ssh_cmd/converters/list_converter.py:10-12 | one document per host, in input order, each holding the template under the producer name and its own host name |
| ListConverter.ToList | producers/ssh_cmd/converters/list_converter.py:14-15 | the list is stored wrapped as {list_key: list} under the producer name |
| ListConverter.SplitLine | producers/ssh_cmd/converters/list_converter.py:18-19 | a line unpacks into (k, v) exactly when the separator is non-empty and cuts it into two parts; otherwise it raises ValueError |
| ListConverter.SplitLineCut | producers/ssh_cmd/converters/test_split.py:8-17 | a line whose only separator lies between a and b gives the stripped key a and the stripped value b |
| ListConverter.SplitSepTwo | producers/ssh_cmd/converters/list_converter.py:18 | line.split(sep) on a line holding sep once gives the two parts around it |
| ListConverter.FindIs | producers/ssh_cmd/converters/list_converter.py:18 | the search for the separator finds the first occurrence |
| ListConverter.SplitFieldsOk | producers/ssh_cmd/converters/list_converter.py:18-19 | the comprehension succeeds exactly when every line cuts into two parts |
| ListConverter.SnocAll | producers/ssh_cmd/converters/list_converter.py:18-19 | every line cuts exactly when every line but the last does and the last does |
| ListConverter.SplitFieldsLast | producers/ssh_cmd/converters/list_converter.py:19 | each key of the dict reads the value of the last line that has it, and the keys are distinct |
| ListConverter.SplitFieldsErr | producers/ssh_cmd/converters/list_converter.py:19 | the only error the comprehension raises is ValueError |
| ListConverter.SplitSpec | producers/ssh_cmd/converters/list_converter.py:17-20 | split raises ValueError when some line does not cut into two parts, and otherwise stores the parsed dict under the producer name |
| NagiosxiApi.Picked | producers/nagiosxi_api/nagiosxi_api.py:50 | one entry per key considered |
| NagiosxiApi.PickSpec | producers/nagiosxi_api/nagiosxi_api.py:50 | while the renamed keys are distinct the comprehension appends one entry per key |
| NagiosxiApi.PickedSnoc | producers/nagiosxi_api/nagiosxi_api.py:50 | one more key adds its renamed key and the input's value, or None, at the end |
| NagiosxiApi.OnlyFieldsSpec | producers/nagiosxi_api/nagiosxi_api.py:45-50 | only_fields on a dict has the renamed keys in order, each reading the input's value for the original key or None |
| NagiosxiApi.ServiceKeysDistinct | producers/nagiosxi_api/nagiosxi_api.py:26-42 | the nine output keys are distinct |
| NagiosxiApi.DefaultRenamed | producers/nagiosxi_api/nagiosxi_api.py:26-42 | MAPPING renames name, performance_data and status_text and leaves the other six columns alone |
| NagiosxiApi.OnlyFieldsDefault | producers/nagiosxi_api/nagiosxi_api.py:45-50 | only_fields with its defaults has the nine keys, distinct and in order |
| NagiosxiApi.OnlyFieldsRenamed | producers/nagiosxi_api/nagiosxi_api.py:38-50 | description, perf_data and plugin_output read the input's name, performance_data and status_text |
| NagiosxiApi.PayloadSpec | producers/nagiosxi_api/nagiosxi_api.py:57-62 | the payload has keys host_name, host_alias, host_address and checks, distinct, each reading what it was given |
| NagiosxiApi.NerdsBase | producers/nagiosxi_api/nagiosxi_api.py:53-62 | nerds_base is a document for the host with version 1 whose nagiosxi_api payload repeats the host fields and has no checks |
| NagiosxiApi.DocumentToNerds | producers/nagiosxi_api/nagiosxi_api.py:57 | a host's document is to_nerds of its payload under the producer nagiosxi_api |
| NagiosxiApi.DocumentBase | producers/nagiosxi_api/nagiosxi_api.py:74-75 | a new host's document is nerds_base |
| NagiosxiApi.PayloadAppend | producers/nagiosxi_api/nagiosxi_api.py:77 | storing the longer checks list gives the payload with the check appended |
| NagiosxiApi.AppendLookups | producers/nagiosxi_api/nagiosxi_api.py:76-77 | the lookups of host, nagiosxi_api and checks succeed on a host's document |
| NagiosxiApi.AppendCheckSpec | producers/nagiosxi_api/nagiosxi_api.py:76-77 | appending a check to a host's document appends it to that host's checks and changes nothing else |
| NagiosxiApi.ServiceEntrySpec | producers/nagiosxi_api/nagiosxi_api.py:71-74 | a service raises KeyError without host_name or host_address and TypeError for an unhashable host name; otherwise its check keeps every other key and loses the three host keys, and host_alias defaults to None |
| NagiosxiApi.Position | producers/nagiosxi_api/nagiosxi_api.py:74-76 | the lookup finds the first document of the host, or reports it absent |
| NagiosxiApi.PoppedPrefix | producers/nagiosxi_api/nagiosxi_api.py:71-73 | the pops keep the number of services |
| NagiosxiApi.PopOne | producers/nagiosxi_api/nagiosxi_api.py:71-73 | the pops on one more service change that service only |
| NagiosxiApi.CollectSnoc | producers/nagiosxi_api/nagiosxi_api.py:70-77 | one more service adds its entry to _dict |
| NagiosxiApi.PopHost | producers/nagiosxi_api/nagiosxi_api.py:71-74 | the three pops give the service's entry or its error, and leave the service popped |
| NagiosxiApi.AddCheck | producers/nagiosxi_api/nagiosxi_api.py:74-77 | the lookup, nerds_base for a new host and the append make _dict the documents after one more service |
| NagiosxiApi.NerdsFormat | producers/nagiosxi_api/nagiosxi_api.py:65-78 | the loop returns what the specification of nerds_format gives and leaves the services list popped up to the first service that raised |
| NagiosxiApi.PairsInit | producers/nagiosxi_api/nagiosxi_api.py:70 | dropping the last service drops its pair |
| NagiosxiApi.StepNames | producers/nagiosxi_api/nagiosxi_api.py:74-75 | a new host is added at the end of _dict and a known host keeps its place |
| NagiosxiApi.CollectNames | producers/nagiosxi_api/nagiosxi_api.py:69-77 | _dict's keys are the host names in order of first appearance |
| NagiosxiApi.CollectDistinct | producers/nagiosxi_api/nagiosxi_api.py:69-77 | _dict's keys are distinct |
| NagiosxiApi.CollectChecks | producers/nagiosxi_api/nagiosxi_api.py:76-77 | each host's checks are the checks of its services, in order |
| NagiosxiApi.StepNew | producers/nagiosxi_api/nagiosxi_api.py:74-77 | a new host gets a document of its own, with its one check, at the end |
| NagiosxiApi.StepKeep | producers/nagiosxi_api/nagiosxi_api.py:74-77 | one more service changes no document's host fields: only checks grow, and a new host's document goes at the end |
| NagiosxiApi.CollectFirstNew | producers/nagiosxi_api/nagiosxi_api.py:74-75 | a host seen for the first time takes its address and alias from that service |
| NagiosxiApi.CollectFirst | producers/nagiosxi_api/nagiosxi_api.py:74-75 | a host's address and alias come from its first service |
| NagiosxiApi.NerdsFormatOk | producers/nagiosxi_api/nagiosxi_api.py:65-78 | nerds_format succeeds exactly when no service raises, with one entry per service |
| NagiosxiApi.NerdsFormatError | producers/nagiosxi_api/nagiosxi_api.py:70-73 | nerds_format raises the error of the first service that raises |
| NagiosxiApi.NerdsFormatHosts | producers/nagiosxi_api/nagiosxi_api.py:65-78 | one document per distinct host name, in order of first appearance, each holding its services' checks in order |
| NagiosxiApi.NerdsFormatFirstService | producers/nagiosxi_api/nagiosxi_api.py:74-75 | a host's host_address and host_alias come from its first service |
| NagiosxiApi.AfterPopsSpec | producers/nagiosxi_api/nagiosxi_api.py:71-73 | the services nerds_format got through lose host_name, host_address and host_alias and keep every other key; those after the one that raised are untouched |
| Nerds.ToNerds | producers/nerds_utils/nerds.py:2-12 | the document has the single key host, holding version and name and, when the producer name is truthy, the data under it; no other key |
| Nerds.ToNerdsDistinct | producers/nerds_utils/nerds.py:2-12 | the host dict's keys are distinct |
| NerdsFile.UpdateHost | producers/nerds_utils/file.py:7 | the update succeeds only on a dict current whose result still has its host key |
| NerdsFile.MergeKeeps | producers/nerds_utils/file.py:5-10 | after a merge into a truthy document each host key of the new document reads its new value and every other host key reads its old value |
| NerdsFile.MergeFalsy | producers/nerds_utils/file.py:8-9 | with a falsy current document the new one is taken as it is |
| NerdsFile.MergeIdempotent | producers/nerds_utils/file.py:5-10 | merging the same document twice is merging it once |
| NerdsFile.SaveToJson | producers/nerds_utils/file.py:22-37 | for any merge argument, the directory exists afterwards; the file written and its contents are those of the target, and on error nothing is written |
| NerdsFile.TargetSpec | producers/nerds_utils/file.py:26-35 | the file is the lower-cased host name plus .json; a first write, or with the default merge_nerds_file a write over a file that does not parse, stores nerds as it is |
| NerdsFile.SaveIdempotent | producers/nerds_utils/file.py:22-37 | with the default merge_nerds_file, saving the same document twice leaves the directory as saving it once |
| NerdsFile.TargetAgain | producers/nerds_utils/file.py:29-35 | once the stored document merges with nerds into itself, saving nerds again with the same merge argument writes the same file and document |
| NerdsFile.TargetStored | producers/nerds_utils/file.py:29-35 | a save over a stored document writes merge(current, nerds), for whichever merge argument is passed |
| NmapServicesPy.Hostnames | producers/nmap_services_py/nmap_services_py.py:52-55 | the hostnames are found only on a dict host_data |
| NmapServicesPy.HostnamesSpec | producers/nmap_services_py/nmap_services_py.py:52-55 | a 'hostname' key names the host alone; otherwise the hostnames are the 'name' of each entry of host_data['hostnames'], in order, and succeed exactly when every entry has one; without either key it raises KeyError |
| NmapServicesPy.CopyProtocols | producers/nmap_services_py/nmap_services_py.py:71-78 | the four if statements copy the protocols present in host_data, in order |
| NmapServicesPy.OsEntry | producers/nmap_services_py/nmap_services_py.py:80-83 | the two if statements build the os entry |
| NmapServicesPy.BuildPayload | producers/nmap_services_py/nmap_services_py.py:57-83 | the statements, run in order, build the payload the specification gives |
| NmapServicesPy.CopyPresentSpec | producers/nmap_services_py/nmap_services_py.py:71-78 | the entries copied are exactly those of the listed keys that host_data has, each with its value |
| NmapServicesPy.ServicesSpec | producers/nmap_services_py/nmap_services_py.py:71-78 | services[host] holds exactly those of tcp, udp, ip and sctp that the scan reports, with the scan's values |
| NmapServicesPy.OsSpec | producers/nmap_services_py/nmap_services_py.py:80-83 | os['class'] and os['match'] are set exactly when the scan has osclass and osmatch, to first() of them, and os has no other key |
| NmapServicesPy.ScanBaseSpec | producers/nmap_services_py/nmap_services_py.py:57-64 | the dict literal has addresses [host], the hostnames, os and services[host] in that order |
| NmapServicesPy.ScanPayloadSpec | producers/nmap_services_py/nmap_services_py.py:57-83 | the payload has addresses, hostnames, os and services, and uptime exactly when the scan reports one |
| NmapServicesPy.NerdsFormatNothing | producers/nmap_services_py/nmap_services_py.py:50-66 | nothing is reported for a falsy data or scan and for a host without hostnames; a truthy data that is not a dict raises AttributeError and a host the scan lacks raises KeyError |
| NmapServicesPy.NerdsFormatDocument | producers/nmap_services_py/nmap_services_py.py:84 | a reported host's document is named after its first hostname, with version 1, and carries the payload under nmap_services_py |
| NmapServicesPy.UniqueSpec | producers/nmap_services_py/nmap_services_py.py:107 | list(set(xs)) keeps every member, adds none and repeats none |
| NmapServicesPy.ExtendHostnames | producers/nmap_services_py/nmap_services_py.py:106-107 | only the hostnames of the old payload change |
| NmapServicesPy.AppendAddress | producers/nmap_services_py/nmap_services_py.py:108-109 | only the addresses of the old payload change |
| NmapServicesPy.CopyServices | producers/nmap_services_py/nmap_services_py.py:110 | only the services of the old payload change |
| NmapServicesPy.ExtendHostnamesSpec | producers/nmap_services_py/nmap_services_py.py:106-107 | the hostnames become every old and every new hostname, each once; an unhashable one raises TypeError |
| NmapServicesPy.AppendAddressSpec | producers/nmap_services_py/nmap_services_py.py:108-109 | the addresses become every old address and new_address, each once; an unhashable one raises TypeError |
| NmapServicesPy.CopyServicesSpec | producers/nmap_services_py/nmap_services_py.py:110 | the services for new_address become new's and every other address's services are untouched |
| NmapServicesPy.MergePayloadSpec | producers/nmap_services_py/nmap_services_py.py:103-110 | a merge raises IndexError when new has no addresses, and keeps every key of the old payload but hostnames, addresses and services |
| NmapServicesPy.MergeSpec | producers/nmap_services_py/nmap_services_py.py:99-115 | merge_nmap_services puts the merged payload under d2's host and changes nothing else in d2 |
| NmapServicesPy.PayloadHostnames | producers/nmap_services_py/nmap_services_py.py:103-107 | the merged payload's hostnames are those of old and those of new, each once |
| NmapServicesPy.PayloadAddresses | producers/nmap_services_py/nmap_services_py.py:103-109 | the merged payload's addresses are old's and new's first address |
| NmapServicesPy.PayloadServices | producers/nmap_services_py/nmap_services_py.py:103-110 | the merged payload's services for new's first address are new's, and every other address keeps old's |
| NmapServicesPy.MergedHostnames | producers/nmap_services_py/nmap_services_py.py:99-115 | the hostnames under d2's host after the merge are d1's and d2's |
| NmapServicesPy.MergedAddresses | producers/nmap_services_py/nmap_services_py.py:99-115 | the addresses under d2's host after the merge are d2's and d1's first address |
| NmapServicesPy.MergedServices | producers/nmap_services_py/nmap_services_py.py:99-115 | after the merge the services for d1's first address are d1's and every other address keeps d2's |
| NmapServicesPy.OutputAsWritten | producers/nmap_services_py/nmap_services_py.py:118-122 | without no_write, output raises TypeError because the save_to_json it imports takes two arguments |
| NmapServicesPy.Output | producers/nmap_services_py/nmap_services_py.py:118-122 | corrected output: without no_write the document is saved by the merge-taking save_to_json with merge_nmap_services; with no_write nothing is written |
| NmapServicesPy.OutputMerges | producers/nmap_services_py/nmap_services_py.py:99-122 | a corrected save over a host's stored document writes the merge of the stored document into the scan: hostnames of both, the scan's addresses plus the stored first address, and the stored services for that address |
| NsoUtils.FindLoop | producers/nso/utils.py:1-9 | the loop returns what the path walk specifies |
| NsoUtils.FindWalk | producers/nso/utils.py:4-8 | through nested dicts find follows every segment and returns the default as soon as one is missing |
| NsoUtils.OneSegment | producers/nso/utils.py:2 | a path without the delimiter is a single key |
| NsoUtils.FindKey | producers/nso/utils.py:1-9 | a one-segment find on a dict is data.get(key, default) |
| NsoUtils.FindAll | producers/nso/utils.py:20-32 | find_all appends to result every value stored under what, in traversal order |
| NsoUtils.AllUnderSound | producers/nso/utils.py:20-32 | everything find_all returns is stored under what somewhere in data |
| NsoUtils.ItemsSound | producers/nso/utils.py:23-25 | everything found in a list's items is stored under what in one of them |
| NsoUtils.FieldsSound | producers/nso/utils.py:26-31 | everything found in a dict's entries is stored under what in one of them |
| NsoUtils.NoKeyNothing | producers/nso/utils.py:20-32 | find_all finds something only when some entry in data is stored under what |
| NsoUtils.TopLevelFound | producers/nso/utils.py:27-29 | each value of an entry under what is found whatever it holds, and nothing below it is searched |
| NsoUtils.FindFirst | producers/nso/utils.py:12-17 | find_first is the first value find_all returns, or the default when it returns nothing; it is always stored under what in data or the default |
| NsoUtils.HostnameCleanSpec | producers/nso/utils.py:35-36 | a leading 'lo0.' goes, a host without 'lo0.' is kept, and cleaning never lengthens the name |
| NsoArista.EosVersionStrips | producers/nso/parser/arista.py:5-6 | an image path flash:/v.swi gives v, for a v in which neither marker occurs before the suffix |
| NsoArista.StripAffixes | producers/nso/parser/arista.py:6 | removing a prefix and then a suffix from p + v + q gives v back when neither occurs earlier than where it was put |
| NsoArista.StripPrefix | producers/nso/parser/arista.py:6 | replacing p by '' in p + w, when p does not occur in w, gives w |
| NsoArista.StripSuffix | producers/nso/parser/arista.py:6 | replacing q by '' in v + q, when no q starts inside v, gives v |
| NsoArista.MapInterfaces | producers/nso/parser/arista.py:19 | one interface per Ethernet entry |
| NsoArista.MapInterfacesAt | producers/nso/parser/arista.py:9-14 | the k-th interface is named 'et' plus the k-th entry's name, and its description is None when the entry has none |
| NsoArista.InterfacesMissing | producers/nso/parser/arista.py:17-19 | without the Ethernet path the switch has no interfaces |
| NsoArista.VersionMissing | producers/nso/parser/arista.py:22-28 | without boot.system the version is the empty string |
| NsoArista.IsAristaSpec | producers/nso/parser/arista.py:31-32 | is_arista holds when the boot path leads through dicts to a non-None value, and fails when a segment is missing |
| NsoJunos.UnitAddressesSound | producers/nso/parser/junos.py:26 | every address name of a unit is the 'name' of something found under an 'address' key of the unit |
| NsoJunos.NamedInSome | producers/nso/parser/junos.py:26 | an entry of a list's items is an entry of one of them |
| NsoJunos.ParseUnits | producers/nso/parser/junos.py:10 | one unit entry per unit |
| NsoJunos.TunnelOf | producers/nso/parser/junos.py:12-17 | a unit gives a tunnel entry exactly when it has a 'tunnel' key |
| NsoJunos.Tunnels | producers/nso/parser/junos.py:12-17 | there are no more tunnel entries than units |
| NsoJunos.TunnelCount | producers/nso/parser/junos.py:12-17 | there is one tunnel entry per unit with a 'tunnel' key |
| NsoJunos.ParseInterfaceSpec | producers/nso/parser/junos.py:5-18 | vlantagging holds iff one of the two tagging keys is present, a missing description is None, bundle is the first 'bundle' value exactly when that value is truthy and None otherwise, and there is one unit entry per unit |
| NsoJunos.NoUnits | producers/nso/parser/junos.py:10-17 | an interface without units has no unit and no tunnel entries |
| NsoJunos.MapInterfaces | producers/nso/parser/junos.py:31 | one interface per item |
| NsoJunos.MapInterfacesAt | producers/nso/parser/junos.py:31 | the k-th interface is built from the k-th item |
| NsoJunos.NeighborPeerings | producers/nso/parser/junos.py:43-52 | one peering per neighbour |
| NsoJunos.NeighborPeeringsSpec | producers/nso/parser/junos.py:43-52 | a group's neighbours give peerings exactly when all are dicts, else AttributeError; the k-th peering carries the group's name, type and local-address and the k-th neighbour's name, description and peer-as |
| NsoJunos.ParseBgpSessions | producers/nso/parser/junos.py:34-53 | the loop returns what the specification of parse_bgp_sessions gives |
| NsoJunos.GroupLoop | producers/nso/parser/junos.py:37-52 | the loop over the groups concatenates each group's peerings, stopping at the first error |
| NsoJunos.SessionsSnoc | producers/nso/parser/junos.py:37-52 | one more group appends its peerings or raises its error |
| NsoJunos.GroupLoopBody | producers/nso/parser/junos.py:39-52 | one pass of the group loop gives that group's peerings |
| NsoJunos.NeighborLoop | producers/nso/parser/junos.py:43-52 | the inner loop gives one peering per neighbour in order, or raises |
| NsoJunos.AgreeSnoc | producers/nso/parser/junos.py:52 | appending the next neighbour's peering keeps the loop invariant |
| NsoJunos.NeighborPeeringsOk | producers/nso/parser/junos.py:43-52 | once every neighbour is read the loop's list is the group's peerings |
| NsoJunos.NeighborPeering | producers/nso/parser/junos.py:45-51 | the peering of a dict neighbour, and AttributeError for anything else |
| NsoJunos.SessionsErrSticky | producers/nso/parser/junos.py:37-52 | once a group raises, later groups change nothing |
| NsoJunos.SessionsCount | producers/nso/parser/junos.py:34-53 | the number of peerings is the sum of the groups' neighbour counts |
| NsoJunos.GroupSessionsCount | producers/nso/parser/junos.py:43 | a group gives one peering per item of its 'neighbor' list and none without one |
| NsoJunos.StringsRaise | producers/nso/parser/junos.py:48 | a neighbour list whose items are strings raises unless it is empty |
| NsoJunos.EmptyDocument | producers/nso/parser/junos.py:30-37 | a document without the path raises TypeError in parse_interfaces and parse_bgp_sessions |
| NsoJunos.MissingPath | producers/nso/utils.py:1-9 | find on an empty dict gives the default |
| NsoJunos.NoNeighbors | producers/nso/parser/junos.py:43 | a group without 'neighbor' contributes no peering |
| NsoJunos.IsJunosSpec | producers/nso/parser/junos.py:56-57 | is_junos holds when the configuration path leads through dicts to a non-None value, and fails when a segment is missing |
| NsoJunos.RouterName | producers/nso/tests/test_junos_parser.py:39-53 | a device address lo0.h gives a router named h |
| NsoJunos.RouterNamed | producers/nso/parser/junos.py:60-65 | the router is named by the address with 'lo0.' removed |
| NunocCosmos.LineEnd | producers/nunoc_cosmos/nunoc_cosmos.py:19 | the first newline, which '.' cannot cross, or the end |
| NunocCosmos.LastAt | producers/nunoc_cosmos/nunoc_cosmos.py:19 | the last '@', where the greedy '.*@' stops, or -1 |
| NunocCosmos.CleanNameSpec | producers/nunoc_cosmos/nunoc_cosmos.py:19-29 | the result is a suffix of the name; a name without '@' is kept; otherwise the cut ends just after an '@', and no '@' is left on the result's first line |
| NunocCosmos.CleanNameCut | producers/nunoc_cosmos/nunoc_cosmos.py:28-29 | the substitution removes nothing, or a prefix ending in '@' |
| NunocCosmos.CutAfterAt | producers/nunoc_cosmos/nunoc_cosmos.py:19 | cutting after an '@' leaves a proper suffix preceded by it |
| NunocCosmos.CleanNameFirstLine | producers/nunoc_cosmos/nunoc_cosmos.py:19-29 | no '@' is left on the result's first line |
| NunocCosmos.NoAtAfterCut | producers/nunoc_cosmos/nunoc_cosmos.py:19 | cutting after the last '@' of the first line leaves none on the first line |
| NunocCosmos.LineEndAfter | producers/nunoc_cosmos/nunoc_cosmos.py:19 | cutting inside the first line moves the first newline with it |
| NunocCosmos.LineEndIs | producers/nunoc_cosmos/nunoc_cosmos.py:19 | the first newline is where no earlier newline is |
| NunocCosmos.CleanNameSingleLine | producers/nunoc_cosmos/nunoc_cosmos.py:28-29 | a single-line name keeps exactly what follows its last '@' |
| NunocCosmos.LastAtIs | producers/nunoc_cosmos/nunoc_cosmos.py:19 | the last '@' is the one with none after it |
| NunocCosmos.CleanNameIdempotent | producers/nunoc_cosmos/nunoc_cosmos.py:28-29 | cleaning a clean name changes nothing |
| RaritanSnmp.DigitRun | producers/raritan_snmp/raritan_snmp.py:24 | `\d+` takes the longest run of digits at the start |
| RaritanSnmp.NonQuoteRun | producers/raritan_snmp/raritan_snmp.py:24 | `[^"]+` takes the longest quote-free run at the start |
| RaritanSnmp.SkipSpace | producers/raritan_snmp/raritan_snmp.py:24 | ` ?` takes at most one character |
| RaritanSnmp.StartsWithConcat | producers/raritan_snmp/raritan_snmp.py:24 | the regex's pieces match in sequence: t starts with a + b exactly when it starts with a and the rest starts with b |
| RaritanSnmp.DescriptionSpec | producers/raritan_snmp/raritan_snmp.py:24 | the description group is exactly the non-empty quote-free text before the first quote |
| RaritanSnmp.SkipSpaceSpec | producers/raritan_snmp/raritan_snmp.py:24 | ` ?` before a text that cannot start with a space takes the space exactly when there is one |
| RaritanSnmp.SkipSpaceTaken | producers/raritan_snmp/raritan_snmp.py:24 | ` ?` takes the leading space when there is one |
| RaritanSnmp.StringPartSpec | producers/raritan_snmp/raritan_snmp.py:24 | the tail ` ?STRING: ?"d"` yields d exactly when some choice of the optional spaces spells it at the start |
| RaritanSnmp.StringBack | producers/raritan_snmp/raritan_snmp.py:24 | a description found is spelled by some choice of the optional spaces |
| RaritanSnmp.StringFrom | producers/raritan_snmp/raritan_snmp.py:24 | a spelled tail yields its description |
| RaritanSnmp.PortPartSpec | producers/raritan_snmp/raritan_snmp.py:24 | the text after the OID yields the port and description exactly when some choice of the three optional spaces spells `.port ?= ?STRING: ?"description"` |
| RaritanSnmp.PortBack | producers/raritan_snmp/raritan_snmp.py:24 | a port found is well formed and spelled by some choice of the spaces |
| RaritanSnmp.PortFrom | producers/raritan_snmp/raritan_snmp.py:24 | a spelled text yields its port: the digit run is maximal because a space or '=' follows it |
| RaritanSnmp.DigitRunExact | producers/raritan_snmp/raritan_snmp.py:24 | `\d+` stops at the end of a digit string followed by a non-digit |
| RaritanSnmp.MatchHereSpec | producers/raritan_snmp/raritan_snmp.py:23-24 | the anchored match yields p exactly when the regex, OID included, matches at the start with groups p |
| RaritanSnmp.SearchFromSpec | producers/raritan_snmp/raritan_snmp.py:35 | search() from a position finds the leftmost match, and none when no later position matches |
| RaritanSnmp.SearchSpec | producers/raritan_snmp/raritan_snmp.py:35 | search() finds nothing exactly when no position of the line matches, and otherwise the groups of the leftmost match |
| RaritanSnmp.RenderedLine | producers/raritan_snmp/raritan_snmp.py:23-24 | a line spelled as snmpwalk prints a port, with or without the optional spaces, yields that port |
| RaritanSnmp.WildcardDots | producers/raritan_snmp/raritan_snmp.py:24 | the unescaped dots of the OID match any character but a newline |
| RaritanSnmp.LeadingText | producers/raritan_snmp/raritan_snmp.py:35 | text before the OID is skipped when no match starts inside it |
| RaritanSnmp.Lines | producers/raritan_snmp/raritan_snmp.py:34 | no line of output.splitlines() holds a line boundary |
| RaritanSnmp.FirstLineEnding | producers/raritan_snmp/raritan_snmp.py:34 | the first line kept with its ending is the line followed by its ending |
| RaritanSnmp.LinesKeepEnds | producers/raritan_snmp/raritan_snmp.py:34 | splitlines() is splitlines(True) with each line's ending removed |
| RaritanSnmp.ParseSnmpwalk | producers/raritan_snmp/raritan_snmp.py:29-40 | the loop collects, in line order, the port of every line the regex matches |
| RaritanSnmp.PortsSnoc | producers/raritan_snmp/raritan_snmp.py:34-39 | one more line adds its match, if any, at the end |
| RaritanSnmp.PortsAppend | producers/raritan_snmp/raritan_snmp.py:34-39 | the ports of joined line lists are the joined ports |
| RaritanSnmp.PortsOfLines | producers/raritan_snmp/raritan_snmp.py:34-39 | each line contributes its own match and nothing else |
| RaritanSnmp.FoundWellFormed | producers/raritan_snmp/raritan_snmp.py:35-39 | a line's port has a non-empty digit name and a non-empty quote-free description |
| RaritanSnmp.PortsBound | producers/raritan_snmp/raritan_snmp.py:34-39 | with a search yielding well-formed ports, the ports are well formed, at most one per line, and none exactly when no line matches |
| RaritanSnmp.PortsWellFormed | producers/raritan_snmp/raritan_snmp.py:29-40 | parse_snmpwalk's ports are well-formed matches, at most one per line, and none exactly when no line matches |
| RaritanSnmp.ToNerds | producers/raritan_snmp/raritan_snmp.py:68-72 | None exactly when there are no ports; otherwise a document for the host with version 1 holding {'ports': ports} under raritan |
| RemoteSource.BreakAt | producers/juniper_conf/util/remote_source.py:68 | the first line boundary, or the end |
| RemoteSource.LineLen | producers/juniper_conf/util/remote_source.py:68 | the first line, its terminator included, is non-empty and fits in the text |
| RemoteSource.SplitLines | producers/juniper_conf/util/remote_source.py:68 | splitlines(True) gives no empty line |
| RemoteSource.ConcatCons | producers/juniper_conf/util/remote_source.py:72 | joining a line before others puts it first |
| RemoteSource.SplitLinesConcat | producers/juniper_conf/util/remote_source.py:68 | the lines with their endings put back together give the text |
| RemoteSource.FirstMatch | producers/juniper_conf/util/remote_source.py:69-70 | the first line that mentions the marker, or the end |
| RemoteSource.Unmatched | producers/juniper_conf/util/remote_source.py:69-72 | the kept lines are those that do not mention the marker, in order |
| RemoteSource.FirstMatchSnoc | producers/juniper_conf/util/remote_source.py:69-70 | reading one more line moves the first mention only when there was none |
| RemoteSource.UnmatchedSnoc | producers/juniper_conf/util/remote_source.py:71-72 | one more line is kept at the end exactly when it does not mention the marker |
| RemoteSource.StripSpecAt | producers/juniper_conf/util/remote_source.py:65-73 | with the first mention at line k the output is the later lines that do not mention the marker, joined |
| RemoteSource.StripFoldSpec | producers/juniper_conf/util/remote_source.py:66-73 | the loop's flag says whether some line mentioned the marker, and its output is the specification |
| RemoteSource.StripBefore | producers/juniper_conf/util/remote_source.py:65-73 | _strip_before returns the lines after the first mention that do not mention it again, and '' when no line mentions it |
| RouterParser.NestedSpec | producers/juniper_conf/parsers/router.py:21-23 | a logical-systems element lies inside another exactly when some logical-systems descendant has a logical-systems descendant |
| RouterParser.CleanFails | producers/juniper_conf/parsers/router.py:18-23 | _clean raises exactly when some logical-systems element has another one below it, whose parent is gone once the outer one is unlinked |
| RouterParser.CleanRemoves | producers/juniper_conf/parsers/router.py:18-23 | after a successful clean no logical-systems element is left |
| RouterParser.AbsentNotNested | producers/juniper_conf/parsers/router.py:21-23 | with no logical-systems element none lies inside another |
| RouterParser.CleanAbsent | producers/juniper_conf/parsers/router.py:18-23 | a tree without logical-systems is left as it is |
| RouterParser.CleanIdempotent | producers/juniper_conf/parsers/router.py:18-23 | cleaning twice is cleaning once |
| RouterParser.HostnameOf | producers/juniper_conf/parsers/router.py:26-35 | get_hostname raises exactly when there is no host-name text |
| RouterParser.HostnamePlain | producers/juniper_conf/parsers/router.py:31-33 | a name without "re0" and "re1" is the host-name, followed by '.' and the domain-name when there is one |
| RouterParser.HostnameShortens | producers/juniper_conf/parsers/router.py:33-34 | suffix stripping never lengthens the joined name and changes it only when "re0" or "re1" occurs in it |
| RouterParser.HostnameRouteEngine | producers/juniper_conf/parsers/router.py:31-34 | "h-re0" in domain "d" becomes "h.d" whenever neither h nor d contains "-re0" or "-re1" |
| RouterParser.ParseMissingHost | producers/juniper_conf/parsers/router.py:29-30 | a configuration without host-name gives no router, the raise failing with NameError for ParserError |
| RouterParser.ParseIgnoresLogicalSystems | producers/juniper_conf/parsers/router.py:7-16 | parsing a tree gives what parsing its cleaned copy gives, the sub-parsers see no logical-systems, and the router's model is the one passed in |
| RouterParser.ParseRouter | producers/juniper_conf/parsers/router.py:7-16 | parse returns what the specification gives; the whitelist list loses the names the interface parser finds, and is untouched when parsing fails |
| Sniff.SniffLines | producers/jarchive/parsers/juniper.py:47-57 | the counting loop returns True when one of lines 0 to 5 starts with the marker, False when a seventh line comes first, and None when the lines run out |
| Sniff.SniffedPrefix | producers/jarchive/parsers/arista.py:33-44 | lines after the seventh are never read: the answer is the answer for the first seven lines |
| SshFile.TemplateReadsSaved | producers/ssh_cmd/file.py:4-11 | template(path) on the file a successful save wrote reads back the document saved; without a path it is {producer_name: True} |
| SshFile.MergeFile | producers/ssh_cmd/file.py:14-19 | a stored file that does not parse raises ValueError |
| SshFile.Target | producers/ssh_cmd/file.py:22-29 | a nerds that is not a dict raises AttributeError; a missing or empty host name writes nothing; a non-empty string name is written to <name>.json as it is, and without the output directory the open fails with IOError on that name |
| SshFile.SaveToJson | producers/ssh_cmd/file.py:21-31 | the directory's existence is unchanged; the file written and its contents are those of the target, and on error nothing is written |
| SshFile.MergeFileVersusNerds | producers/ssh_cmd/file.py:14-19 | on a truthy stored document the strict merge is the nerds_utils merge; on an empty stored dict it raises where nerds_utils takes the new document |
| SshFile.SaveIdempotent | producers/ssh_cmd/file.py:21-31 | once a save succeeded, saving the same document again leaves the directory as it is |
| Strs.ContainsAt | producers/juniper_conf/util/remote_source.py:69 | `p in s` holds exactly when p occurs at some position of s |
| Strs.LStrip | producers/jarchive/parsers/juniper.py:5 | the leading whitespace, and only that, is dropped |
| Strs.RStrip | producers/jarchive/parsers/juniper.py:5 | the trailing whitespace, and only that, is dropped |
| Strs.Strip | producers/ssh_cmd/converters/list_converter.py:19 | str.strip() neither starts nor ends with whitespace and never lengthens the string |
| Strs.StripOccurs | producers/jarchive/parsers/juniper.py:5 | what strip() keeps is a piece of the string |
| Strs.TokenLen | producers/alcatel_isis/alcatel_isis.py:202 | the first token is the maximal run of non-whitespace at the start |
| Strs.Split | producers/alcatel_isis/alcatel_isis.py:202 | str.split() gives non-empty tokens without whitespace |
| Strs.SplitJoin | producers/jarchive/parsers/juniper.py:26-27 | splitting a space-joined list of tokens gives the tokens back |
| Strs.SplitOne | producers/jarchive/parsers/arista.py:20 | a single token splits into itself |
| Strs.SplitSnoc | producers/jarchive/parsers/arista.py:20 | a token after a space is the last token split() finds |
| Strs.NormalizeWhitespaceSpec | producers/csv_producer/csv_producer.py:46 | ' '.join(text.split()) is in normal form, keeps exactly the tokens of the text, and normalising again changes nothing |
| Strs.NormalizeEmpty | producers/cfengine_report/cfengine_report.py:42 | the normal form is empty exactly when the text is blank |
| Strs.SplitChars | producers/alcatel_isis/alcatel_isis.py:202 | every character of a token comes from the input |
| Strs.JoinChars | producers/alcatel_isis/alcatel_isis.py:108 | every character of a join comes from the separator or a part |
| Strs.NormalizeChars | producers/alcatel_isis/alcatel_isis.py:108 | normalising introduces no character except ' ' |
| Strs.NormalizeNoSpace | producers/alcatel_isis/alcatel_isis.py:108 | a string without whitespace normalises to itself |
| Strs.DeleteCharFrom | producers/csv_producer/csv_producer.py:45 | replacing a character by '' keeps only characters of the input, and changes nothing when it does not occur |
| Strs.Find | producers/ssh_cmd/converters/list_converter.py:18 | the first occurrence of the separator, or the end when there is none |
| Strs.SplitSep | producers/ssh_cmd/converters/list_converter.py:18 | str.split(sep) gives at least one piece |
| Strs.JoinSplitSep | producers/ssh_cmd/converters/list_converter.py:18 | joining the pieces with the separator restores the string |
| Strs.SplitSepChars | producers/ssh_cmd/converters/list_converter.py:18 | every character of a piece comes from the input |
| Strs.SplitSepCut | producers/ssh_cmd/converters/list_converter.py:18 | when sep occurs, the first piece ends at its first occurrence and the rest is split again |
| Strs.FindChar | producers/nso/utils.py:2 | a one-character separator is found exactly when it occurs |
| Strs.SplitSepOne | producers/nso/utils.py:2 | str.split(sep) cuts nothing exactly when sep does not occur |
| Strs.SplitSepLast | producers/nso/utils.py:2 | the last piece of str.split(c) does not hold c |
| Strs.SplitSepWhole | producers/nso/utils.py:2 | a string without the separator is its own only piece |
| Strs.SplitOnce | producers/jarchive/parsers/juniper.py:13 | str.split(sep, 1) gives one piece, the whole string, or two pieces that rejoin around sep |
| Strs.FindAbsent | producers/jarchive/parsers/juniper.py:13 | a string that does not occur is not found |
| Strs.FindCharAfter | producers/jarchive/parsers/juniper.py:13 | the first one-character separator is right after a stretch without it |
| Strs.SplitOnceAfter | producers/jarchive/parsers/juniper.py:13 | s.split(c, 1) cuts right after a stretch without c |
| Strs.SplitOnceNone | producers/jarchive/parsers/juniper.py:13 | s.split(c, 1) does not cut a string without c |
| Strs.StripId | producers/jarchive/parsers/juniper.py:5 | a string without whitespace at either end is its own strip() |
| Strs.ReplaceAbsent | producers/nso/utils.py:36 | replacing a string that does not occur changes nothing |
| Strs.ReplaceAfterPlain | producers/nso/parser/arista.py:6 | the first occurrence replaced is the one after a stretch free of its first character |
| Strs.ReplaceUpTo | producers/nso/parser/arista.py:6 | the first occurrence replaced is the one after a stretch in which none starts |
| Strs.ReplaceSkip | producers/nso/utils.py:36 | a character where no occurrence starts is copied and scanning goes on after it |
| Strs.RemoveShortens | producers/nso/utils.py:36 | replacing by '' never lengthens the input and shortens it whenever it changes it |
| Strs.ReplaceFront | producers/nso/utils.py:36 | an occurrence at the front is replaced and scanning resumes after it |
| Strs.Inner | producers/jarchive/parsers/juniper.py:21-23 | val[1:-1] drops the first and last characters, and is '' for fewer than two |
| Strs.DeleteCharAppend | producers/csv_producer/csv_producer.py:45 | replace(c, '') on a concatenation is the concatenation of its parts with c deleted |
| Strs.DeleteCharSingle | producers/csv_producer/csv_producer.py:45 | replace(c, '') drops the character c and keeps every other character; with DeleteCharAppend, the result is the input's other characters in order |
| Strs.NatToStrDigits | producers/utils/file.py:26 | str(n) of a natural number is its decimal spelling: digits only, no leading zero, and the digits read back give n |
| UtilsFile.MergeFile | producers/utils/file.py:5-17 | a stored file that does not parse gives the new document as it is |
| UtilsFile.Target | producers/utils/file.py:24-29 | a nerds that is not a dict raises AttributeError; a missing or empty host name writes nothing; a non-empty string name is written to <name>.json with no case normalisation |
| UtilsFile.SaveToJson | producers/utils/file.py:20-33 | the directory exists afterwards; the file written and its contents are those of the target, and on error nothing is written |
| UtilsFile.AgreesWithNerdsFile | producers/utils/file.py:20-33 | on a dict document whose host name is a lower-case string, this helper writes what the nerds_utils helper writes, under the same name |
| UtilsFile.IntegerName | producers/utils/file.py:26 | an integer host name is written under its decimal digits |
| UtilsFile.SaveIdempotent | producers/utils/file.py:20-33 | saving the same document twice leaves the directory as saving it once |
| Xml.Filter | producers/juniper_conf/parsers/base.py:32 | selecting by tag keeps at most every candidate |
| Xml.FilterIn | producers/juniper_conf/parsers/base.py:32 | a candidate is kept exactly when it carries the tag |
| Xml.FilterAppend | producers/juniper_conf/parsers/base.py:32 | selecting from joined lists joins the selections |
| Xml.SearchIsFilter | producers/juniper_conf/parsers/base.py:32 | getElementsByTagName returns exactly the proper descendants carrying the tag, in document order |
| Xml.ByTagIsFilter | producers/juniper_conf/parsers/base.py:32 | the same, read on a node |
| Xml.SearchSound | producers/juniper_conf/parsers/base.py:32 | every element found carries the tag and lies strictly below the node |
| Xml.DescendantsInDesc | producers/juniper_conf/parsers/base.py:32 | every descendant visited is an element below the node |
| Xml.DescendantsComplete | producers/juniper_conf/parsers/base.py:32 | every element below the node is visited: the search misses nothing |
| Xml.ByTagExists | producers/juniper_conf/parsers/base.py:32 | getElementsByTagName finds something exactly when some proper descendant carries the tag |
| Xml.ChildTextEmpty | producers/juniper_conf/parsers/base.py:15-16 | the joined text of the direct text children is empty exactly when each of them is |
| Xml.PruneRemoves | producers/juniper_conf/parsers/router.py:21-23 | after removing every element with the tag, the search for it finds nothing |
| Xml.PruneAbsent | producers/juniper_conf/parsers/router.py:21-23 | removing from children that hold no such element changes nothing |
| AlcatelIsis.RunDistinct | producers/alcatel_isis/alcatel_isis.py:200-236 | the loop keeps the stored node names distinct |
| AlcatelIsis.RunNameSet | producers/alcatel_isis/alcatel_isis.py:222-236 | name is always bound once a node is open, so the loop never raises NameError for it |
| BgpParser.SizesPerGroup | producers/juniper_conf/parsers/bgp.py:11-24 | each group's list holds one peering per neighbour of that group |
| ElementParser.All | producers/juniper_conf/parsers/base.py:27-32 | all(tag) on EmptyTree is empty, and otherwise has one accessor per element getElementsByTagName finds |
| JarchiveArista.HostnameRule | producers/jarchive/parsers/arista.py:19-20 | a stripped line starting "hostname " stores its last token under hostname |
| JarchiveArista.DomainRule | producers/jarchive/parsers/arista.py:21-22 | a stripped line starting "ip domain-name " stores its last token under domain-name |
| JarchiveArista.AddressRule | producers/jarchive/parsers/arista.py:23-24 | a stripped line starting "ip address " stores its last token under ip-address |
| JarchiveArista.BlockRule | producers/jarchive/parsers/arista.py:12-17 | a vlan or interface line opens a block under its first token plus "s" when split() gives two tokens, and raises otherwise |
| JarchiveArista.QuotedLine | producers/jarchive/parsers/arista.py:25-29 | a keyword, a space and a quoted value: split(' ', 1) cuts after the keyword and the quotes come off the value |
| JarchiveArista.ExampleSettings | producers/jarchive/parsers/arista.py:19-22 | a hostname line and a domain-name line read into an empty dict give both settings, in order |
| JarchiveArista.ExampleBlock | producers/jarchive/parsers/arista.py:12-17 | an interface block with one description, ended by "!", is stored under interfaces, then its name |
| JarchiveJuniper.QuotedValue | producers/jarchive/parsers/juniper.py:22-23 | a quoted value is the text between the quotes |
| JarchiveJuniper.BlockKeyOf | producers/jarchive/parsers/juniper.py:25-28 | the key of a "k {" line is k |
| LegacyJuniperConf.TunnelsRoundTrip | producers/juniper_conf/juniper_conf.py:60-64 | the tunnels list serialised by to_json reads back as the tunnels |
| LegacyJuniperConf.UnitsRoundTrip | producers/juniper_conf/juniper_conf.py:60-64 | the units list serialised by to_json reads back as the units |

## Left out

- Command-line entry points (`main`, `cli`, argparse), printing, and all file I/O other than the merge-on-write helpers. Those helpers work on the in-memory `NerdsStore.Directory`, not on a file system.
- SSH and pexpect sessions (`producers/juniper_conf/util/remote_source.py:18-63`, `producers/alcatel_isis/alcatel_isis.py:147-186`): remote access, outside the program's logic. The command output they return is a parameter.
- HTTP clients (`producers/nso/api.py`, `producers/nagiosxi_api/nagiosxi_api.py:81-97`) and the livestatus UNIX socket (`producers/checkmk_livestatus/checkmk_livestatus.py:29-60`): network I/O. Their answers are parameters.
- The asynchronous nmap scan (`producers/nmap_services_py/nmap_services_py.py:33-43`): a foreign library. Its scan result is a parameter.
- `host_data.uptime()` (`producers/nmap_services_py/nmap_services_py.py:69`) is a call into python-nmap, so the uptime is an opaque parameter.
- The `host` and `snmpwalk` subprocesses and host name lookup of `raritan_snmp.py`, and the YAML loading and `main` of `nunoc_cosmos.py`: subprocesses and file I/O. The walk's text is a parameter. The bytes it arrives as are taken as already decoded.
- `regex_check` (`producers/nunoc_cosmos/nunoc_cosmos.py:24-25`) applies arbitrary user-supplied regular expressions, which the model has no regex engine for.
- `producers/nso/nso.py` and `producers/jarchive/jarchive.py`: HTTP and glob/file orchestration around the modelled parsers.
- `producers/ssh_cmd/cli.py`, `producers/ssh_cmd/converters/csv_converter.py` and `producers/ssh_cmd/ssh_cmd.py`: thin wrappers over ConfigParser, csv.DictReader and fabric.
- `producers/juniper_conf/util/writer.py`: pure file output whose envelope duplicates `to_nerds`.
- JSON text formatting (indent, sort_keys) and XML parsing (minidom): documents and trees are datatypes, taken as already parsed. A stored file that does not parse is the `Corrupt` marker.
- Concurrent writers: the merge helpers are an unlocked read-modify-write. The model performs one write at a time.
- Set order (`list(set(...))` in `merge_nmap_services`) is not defined: the model keeps first appearance, and the properties speak of membership, not of positions.
- The checkmk producer is Python 2 code (`print out`, `except IOError as (errno, strerror)`), where the `.values()` of its grouping dict is unordered, so `CheckmkLivestatus` returns a map from host name to document. NagiosXI imports `configparser`, the Python 3 module name, and Python 3 dicts keep insertion order, so its documents keep first-appearance order.
- Python's `True == 1` equality of dict keys: keys are compared as values of the `Json.Value` datatype.
- `str.split()`, `str.strip()` and `str.lower()` treat only ASCII whitespace (space, `\t`, `\n`, `\v`, `\f`, `\r`) and ASCII letters, as Python 2 byte strings do. Python 3 also splits at `\x1c`-`\x1f` and at the Unicode spaces, so the Python 3 producers (jarchive, raritan_snmp) differ on text that holds those. `csv_producer` and `cfengine_report` are Python 2 code (print statements, `except IOError as (errno, strerror)`), so the model matches them. Python 3's `\d` in the Raritan pattern also matches non-ASCII decimal digits; the model does not.
- RemoteSource.IsLineBreak: uses the line boundaries of Python 3 `str.splitlines`. The Python 2 byte strings of `juniper_conf` break only at `\n`, `\r` and `\r\n`, so the two differ on text holding `\v`, `\f`, `\x1c`-`\x1e` or `\x85`.
- GetHostname (JarchiveJuniper.GetHostname): a host-name that is a list not holding 're0' or a block without an re0 key, and a domain-name that is a list or a block, give Err(Unsupported). Python returns such a host-name as it is, or formats its repr or the domain's repr into the name; the model has no repr. Boolean and integer host-names (TypeError), a list holding 're0' or a block with an re0 key (AttributeError), and integer domain-names (written in decimal) are modelled.
- GetHostname (JarchiveArista.GetHostname): a hostname or domain-name that is not a string gives Err(Unsupported) where the f-string writes its repr.
- UpdateHost (NerdsFile.UpdateHost): a new host entry that is neither a dict nor None gives Err(Unsupported). `dict.update` would raise TypeError or ValueError on most such values, or accept a list of pairs.
- CopyServices (NmapServicesPy.CopyServices): a `new_address` that is not a string gives Err(Unsupported). Python would look it up as a key and raise KeyError or TypeError.
- Format (Json.Format): the repr of a list or a dict is not modelled (Err(Unsupported)).
- Target (UtilsFile.Target): a host name that is a list or a dict gives Err(Unsupported) through Json.Format, where `"{}.json".format` writes its repr.
- Target (SshFile.Target): a host name that is a list or a dict gives Err(Unsupported) through Json.Format, where `"{}.json".format` writes its repr.
- SaveToJson (NerdsFile.SaveToJson): `sort_keys` only formats the JSON text and is not modelled. The `merge` argument is a parameter.
- InterfaceParser: `interfaces.py:8` calls `parent().tag()`. `parsers/base.py` defines no `parent` method, so the code as written raises AttributeError on every tree with an `<interfaces>` element, and so does `RouterParser.parse`, which calls it. The model follows the evident intent through ElementParser.ParentTag.
- The nso `models` module (Interface, BgpPeering, Router, Switch) is not part of this model, so `NsoJunos` and `NsoArista` define those records directly.
- `utils.nerds.to_nerds`, which `nagiosxi_api.py` and `nmap_services_py.py` import, is not part of this model. Their documents use the `nerds_utils` envelope shape.
- NagiosxiApi.NerdsFormat: the service dicts it pops keys from are values in an array, so aliasing between a service dict and the check stored in a document is not modelled. The pops are visible as the array's new contents.
- NmapServicesPy.Merge: `merge_nmap_services` mutates `d2` in place. The model returns the merged document as a value. The partial update left behind when it raises halfway is not modelled.
- Tests that expect more than the code does:
  - the nso tests expect `[]` for an empty device (`producers/nso/tests/test_junos_parser.py:206-209`, `producers/nso/tests/test_junos_parser_bgp.py:100-103`), where the code iterates the None that `find` returns and raises TypeError;
  - the nso tests call `parse_router` with a second argument;
  - the juniper_conf interface tests expect inactive flags and logical-system unit merging (`producers/juniper_conf/parsers/test_interfaces.py:19`, `:27`, `:54-60`).
  The model follows the code in each case.
- `juniper_conf.py` `main` refers to undefined names (`xmldocs`, `conflist`) and is left out with the other entry points.

## Findings

| source | as written | input that shows it | evidently intended | confidence | as-written member | corrected member |
|---|---|---|---|---|---|---|
| producers/juniper_conf/models/chassis.py:9-12 | `Chassis.to_json` returns `vars(self)`, the object's own attribute dict, and overwrites its `modules` with their serialisations | the chassis of `test_to_json_safe` (`producers/juniper_conf/models/test_chassis.py:28-32`): renaming the returned dict renames the chassis, and a second `to_json` calls `to_json` on a dict and raises AttributeError | a fresh dict, as `ChassisModule.to_json` makes with `vars(self).copy()` | not executed | JuniperModels.ChassisObject.ToJsonAsWritten, JuniperModels.RenameAfterToJsonAsWritten | JuniperModels.ChassisObject.ToJson, JuniperModels.RenameAfterToJson |
| producers/nmap_services_py/nmap_services_py.py:118-122 | `output` calls `save_to_json(d, out_dir, merge_nmap_services)`, but the `save_to_json` imported at line 12 (`producers/utils/file.py:20`) takes only `nerds` and `out_dir` | any scan written without `-N`: the call raises TypeError before anything is written, so `merge_nmap_services` is never reached | save with a `save_to_json` that takes the merge, as `producers/nerds_utils/file.py:22` does, so a host scanned again is merged with its stored document | not executed | NmapServicesPy.OutputAsWritten | NmapServicesPy.Output, NmapServicesPy.OutputMerges |
