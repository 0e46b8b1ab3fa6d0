# GAIA to Endless Sky pipeline: a Dafny model

The pipeline turns a Gaia DR3 star catalogue into an Endless Sky galaxy in
four steps:

1. **Catalogue.** Each star gets a spectral class from its effective
   temperature and a luminosity class from its absolute magnitude. It then
   gets a sub-class ("giant", "normal" or "dwarf"), an icon from the
   `star_image_key` table and a Galactic quadrant. Stars in the same cube
   become binary candidates. Each star also gets a `Name_two` of the form
   `S{quadrant}{grid index}-{counter}`. Positions are stored as base-64 grid
   keys: a 22-character key for a 2-D cell (`encode_2d`/`decode_2d`) and a
   9-character cube code (`encode_cube`).
2. **Thinning.** Within each occupied 2-D cell, only the star whose
   class/sub-class combination is rarest across the cell's 3×3
   neighbourhood is kept.
3. **Link map.** Gravity-well peaks are split into rivers, creeks and
   brooks by two thresholds, and a graph is built:
   - rivers link to each other when closer than 50 (Manhattan distance);
   - a creek links to its nearest river when closer than 75;
   - a brook links to its nearest creek or river when closer than 100.
4. **Systems.** Each catalogue row becomes an Endless Sky `system`
   definition. A second script assembles named systems and their links from
   a CSV into a JSON topology.

The model follows those scripts and their data tables:

| module | file | what it models |
|---|---|---|
| `Common`, `Text` | common.dfy, text.dfy | the Python list and string operations the scripts use: `strip`, `split`, `zfill`, `int()`, `sorted`, pandas `unique` and `value_counts` |
| `Base64` | base64.dfy | standard base-64 with `=` padding, and its decoder |
| `GridCodec` | gridcodec.dfy | `encode_2d`, `decode_2d`, `get_neighbor_keys`, `encode_axis`, `encode_cube` |
| `Catalog` | catalog.dfy | `classify_star`, `determine_luminosity_class`, `get_star_classification`, `determine_quadrant`, binary candidates, `Name_two` |
| `Thinning` | thinning.dfy | the local-rarity loop |
| `LinkMap` | linkmap.dfy | the tiers and the three linking passes |
| `SkyData` | skydata.dfy | the tables of `endless_sky_data.py` |
| `Rng` | rng.dfy | `random.randint`, `uniform`, `choice` and NumPy's `poisson`, read from injected streams |
| `Naming` | naming.dfy | `to_roman`, `sanitize_name`, `get_system_name` |
| `Stars` | stars.dfy | `get_star_attributes`, `get_star_params`, `get_star_data` |
| `Planets` | planets.dfy | `generate_planets_from_zones` |
| `Landing`, `Bodies`, `SystemGen`, `Render` | landing.dfy, bodies.dfy, systemgen.dfy, render.dfy | `generate_system`, from landability and naming through star, planet, moon and station objects to the header, asteroids, minables, trade and fleets, and the line structure of the output |
| `Topology` | topology.dfy | `System`, `load_systems_from_csv`, `to_dict`, `save_systems_to_json` |

Randomness is a parameter. A `Source` is a triple of infinite streams, and a
`Cursor` records how far each stream has been read. Every property of the
generator therefore holds for every possible sequence of draws. The
generator's draws are taken in the order the script takes them.

The output text of `generate_system` is modelled as a sequence of
structured lines. These are the header, asteroid, minable, trade and fleet
lines, and object lines at depth 1 or 2. Real numbers are kept as reals
instead of being formatted.

Behaviours of the code that the model keeps as written:

- `get_star_attributes` calls every A-class giant a "supergiant star".
- The moon-zone `next(...)` scans the zones in table order and can pick the
  asteroid belt.
- A link cell such as `"a,,b"` creates a system named `""`.
- A row may link to itself.
- The `habitable` header value includes the primary star's habitability.
- The asteroid count is 2 to 5, plus 1 to 3 when some planet lies in the
  scaled belt band. The belt band overlaps the snow line.
- `landable_count` is computed but never used, so it is not modelled.

## Model

| member | source | states |
|---|---|---|
| Base64.ValueOfCharOf | 1_GAIA_Plus_Create_CSV.py:38-42 | reading back the character that encodes a 6-bit value gives that value, so the encoding alphabet is one-to-one |
| Base64.EncodeData | 1_GAIA_Plus_Create_CSV.py:38 | the unpadded encoding of n bytes has ⌈4n/3⌉ characters, never a length of 1 mod 4, all from the alphabet |
| Base64.Padding | 1_GAIA_Plus_Create_CSV.py:38 | the padding is (3 − n mod 3) mod 3 '=' characters |
| Base64.Decode | 1_GAIA_Plus_Create_CSV.py:42 | the model's decoder succeeds exactly when the text before the trailing '=' is alphabet characters of a valid length, with enough '=' to complete the last group; this is stricter than `b64decode`, see Left out |
| Base64.GroupRoundTrip | 1_GAIA_Plus_Create_CSV.py:38-42 | every 3-byte group decodes back from its 4 characters |
| Base64.DataRoundTrip | 1_GAIA_Plus_Create_CSV.py:38-42 | decoding the unpadded encoding of any byte string gives the bytes back |
| Base64.EncodeDecode | 1_GAIA_Plus_Create_CSV.py:38-42 | `b64decode(b64encode(bs)) == bs` for every byte string |
| Base64.EncodeDataIsDigits | 1_GAIA_Plus_Create_CSV.py:36-38 | the encoding of a 3m-byte big-endian number is that number's 4m base-64 digits, most significant first |
| GridCodec.BytesRoundTrip | 1_GAIA_Plus_Create_CSV.py:37-42 | `int.from_bytes(v.to_bytes(n, 'big'), 'big') == v` for every v < 256ⁿ |
| GridCodec.Unpack | 1_GAIA_Plus_Create_CSV.py:36-44 | the shifts and masks of `decode_2d` recover x and y from `(x << 64) + y` when both fit in 64 bits |
| GridCodec.Repack | 1_GAIA_Plus_Create_CSV.py:43-44 | every 128-bit value is its high half shifted by 64 plus its low half |
| GridCodec.CellKey | 1_GAIA_Plus_Create_CSV.py:33-38 | a cell key is 22 alphabet characters |
| GridCodec.CellKeyIsKeyText | 1_GAIA_Plus_Create_CSV.py:33-38 | the digit form of a cell key equals the padded encoding of its 16 bytes with the '=' stripped |
| GridCodec.Encode2D | 1_GAIA_Plus_Create_CSV.py:33-38 | encoding succeeds exactly when `(x << 64) + y` lies in [0, 2¹²⁸), since `to_bytes(16)` raises otherwise; the key is then 22 alphabet characters |
| GridCodec.PadFor | 1_GAIA_Plus_Create_CSV.py:41 | the padding `decode_2d` adds brings the length to a multiple of 4 and consists of '=' only |
| GridCodec.KeyBytes | 1_GAIA_Plus_Create_CSV.py:41-42 | the bytes of a key are recovered exactly when the key is well formed |
| GridCodec.Decode2D | 1_GAIA_Plus_Create_CSV.py:40-45 | decoding succeeds exactly for well-formed keys, and both coordinates are below 2⁶⁴ |
| GridCodec.KeyTextDecodes | 1_GAIA_Plus_Create_CSV.py:38-42 | re-padding and decoding the stripped key of any 16 bytes gives the 16 bytes |
| GridCodec.KeyDecodesToPacked | 1_GAIA_Plus_Create_CSV.py:33-45 | decoding an encoded pair gives the high and low 64-bit halves of the packed value |
| GridCodec.RoundTrip2D | 1_GAIA_Plus_Create_CSV.py:33-45 | `decode_2d(encode_2d(x, y)) == (x, y)` for all 0 ≤ x, y < 2⁶⁴ |
| GridCodec.Encode2DInjective | 1_GAIA_Plus_Create_CSV.py:33-38 | two pairs with the same key have the same packed value |
| GridCodec.Block | 2_GAIA_Plus_Thined.py:37-44 | the 3×3 block around a cell exists exactly when all nine neighbours are encodable, and it has nine keys |
| GridCodec.NeighborKeys | 2_GAIA_Plus_Thined.py:37-44 | `get_neighbor_keys` succeeds exactly when the key decodes and its whole block is encodable; it then gives nine keys |
| GridCodec.BlockAt | 2_GAIA_Plus_Thined.py:40-43 | the k-th neighbour key is the encoding of (gx + dx, gy + dy), with dx in the outer loop and dy in the inner loop |
| GridCodec.NeighborKeysIsBlock | 2_GAIA_Plus_Thined.py:37-44 | the neighbours of a key are the block around its decoded cell |
| GridCodec.CentreIsKey | 2_GAIA_Plus_Thined.py:37-44 | the fifth neighbour of a key produced by `encode_2d` is the key itself |
| GridCodec.InteriorNeighbors | 2_GAIA_Plus_Thined.py:37-44 | for a cell away from the edges, the nine neighbour keys are distinct and decode to the nine offsets |
| GridCodec.Clip | 1_GAIA_Plus_Create_CSV.py:25 | `encode_axis` clips its input to [0, 262143] |
| GridCodec.AxisBytes | 1_GAIA_Plus_Create_CSV.py:26 | the three bytes of `encode_axis` are each below 64 |
| GridCodec.EncodeAxis | 1_GAIA_Plus_Create_CSV.py:23-27 | an axis code is 3 alphabet characters |
| GridCodec.AxisCodeEquality | 1_GAIA_Plus_Create_CSV.py:23-27 | two inputs get the same axis code exactly when their clipped values agree once the low 6 bits are dropped |
| GridCodec.AxisCodeShape | 1_GAIA_Plus_Create_CSV.py:26-27 | the first character of an axis code encodes a value below 16, and the last encodes a value whose low two bits are clear |
| GridCodec.EncodeCube | 1_GAIA_Plus_Create_CSV.py:29-31 | a cube code is 9 alphabet characters |
| GridCodec.CubeCodeEquality | 1_GAIA_Plus_Create_CSV.py:29-31 | two points share a cube code exactly when each of their clipped coordinates agrees after dropping the low 6 bits |
| GridCodec.CubeCodeCollision | 1_GAIA_Plus_Create_CSV.py:23-31 | x and x + 63 get the same cube code when x is a multiple of 64 |
| GridCodec.EncodeAxisIntended | 1_GAIA_Plus_Create_CSV.py:23-27 | the corrected axis code is 3 alphabet characters |
| GridCodec.AxisIntendedRoundTrip | 1_GAIA_Plus_Create_CSV.py:23-27 | the corrected axis code decodes back to the clipped input |
| GridCodec.EncodeCubeIntended | 1_GAIA_Plus_Create_CSV.py:29-31 | the corrected cube code is 9 characters |
| GridCodec.CubeIntendedRoundTrip | 1_GAIA_Plus_Create_CSV.py:29-31 | the corrected cube code decodes back to the three clipped coordinates |
| Catalog.ClassifyStar | 1_GAIA_Plus_Create_CSV.py:349-366 | the class is one of O, B, A, F, G, K, M, and a NaN temperature, which fails every comparison, is M |
| Catalog.BandsDisjoint | 1_GAIA_Plus_Create_CSV.py:355-364 | no temperature lies in two of the classifier's bands |
| Catalog.ClassifyMatchesBands | 1_GAIA_Plus_Create_CSV.py:349-366 | above 30000 K the class is O; inside a band it is that band's letter; otherwise it is M |
| Catalog.ClassifyStarGap | 1_GAIA_Plus_Create_CSV.py:353-356 | 29999 K is class B but 30000 K is class M, so the class gets cooler as the temperature rises |
| Catalog.ClassifyStarIntended | 1_GAIA_Plus_Create_CSV.py:349-366 | the corrected classifier agrees with the original everywhere except at exactly 30000 K |
| Catalog.IntendedMonotone | 1_GAIA_Plus_Create_CSV.py:349-366 | with the corrected classifier, a hotter star never gets a cooler class |
| Catalog.LuminosityClass | 1_GAIA_Plus_Create_CSV.py:340-347 | the class is "I" exactly when the magnitude is present and negative, and "V" otherwise, including NaN |
| Catalog.SubClass | 1_GAIA_Plus_Create_CSV.py:222-223 | "I" maps to giant, "V" to dwarf, anything else to normal |
| Catalog.FindEntry | 1_GAIA_Plus_Create_CSV.py:224-225 | the search returns the first row matching the class and sub-class, or none when no row matches |
| Catalog.ClassificationIn | 1_GAIA_Plus_Create_CSV.py:220-231 | the icon is the first sprite of the first matching row; with no match it is the fallback `star/{class}0` |
| Catalog.StarClassification | 1_GAIA_Plus_Create_CSV.py:220-231 | the classification keeps the given class and the sub-class of the luminosity class |
| Catalog.TableLayout | 1_GAIA_Plus_Create_CSV.py:55-77 | row 3c + k of `star_image_key` is the only row for class c and sub-class k |
| Catalog.ClassifiedStarHasRow | 1_GAIA_Plus_Create_CSV.py:220-231 | every classified star finds its row in such a table, so the fallback icon is never used |
| Catalog.ClassifiedStarHasSprite | 1_GAIA_Plus_Create_CSV.py:55-77 | with the real table, every catalogue star's icon is the first sprite of its row |
| Catalog.Quadrant | 1_GAIA_Plus_Create_CSV.py:262-272 | the quadrant is one of "1" to "4" |
| Catalog.QuadrantIsRightAngles | 1_GAIA_Plus_Create_CSV.py:262-272 | below 270° the quadrant is ⌊l / 90⌋ + 1; anything else, including negative l and a NaN l, is "4" |
| Catalog.BinaryCandidates | 1_GAIA_Plus_Create_CSV.py:507-509 | a star is a binary candidate exactly when its cube code occurs exactly twice |
| Catalog.CandidatesPair | 1_GAIA_Plus_Create_CSV.py:507-509 | every binary candidate has exactly one partner: another candidate with the same code |
| Catalog.NameTwo | 1_GAIA_Plus_Create_CSV.py:511-516 | the name starts with 'S' and ends with '-' and the counter zero-filled to 4 digits |
| Catalog.NameTwoFields | 1_GAIA_Plus_Create_CSV.py:511-516 | the name reads back field by field: 'S', the quadrant, the zero-filled grid index `ra_idx * 180 + dec_idx` (exactly 4 digits while it is below 10000), '-', then the zero-filled counter |
| Catalog.BatchNames | 1_GAIA_Plus_Create_CSV.py:511-516 | the i-th star of a batch is named with counter i |
| Catalog.BatchNamesDistinct | 1_GAIA_Plus_Create_CSV.py:511-516 | names within one batch are pairwise distinct |
| Catalog.NamesDiffer | 1_GAIA_Plus_Create_CSV.py:511-516 | different counters in the same grid cell give different names |
| Thinning.NeighbourCounts | 2_GAIA_Plus_Thined.py:60-66 | every combination in the neighbourhood counter occurs at least once |
| Thinning.CountsInclude | 2_GAIA_Plus_Thined.py:60-66 | every star whose key lies in the block contributes to its combination's count |
| Thinning.Rarity | 2_GAIA_Plus_Thined.py:71-73 | the rarity lies in (0, 1] and is the reciprocal of a non-zero count |
| Thinning.RarityOrder | 2_GAIA_Plus_Thined.py:71-76 | a combination is at most as rare as another exactly when it is at least as common |
| Thinning.Rarest | 2_GAIA_Plus_Thined.py:75-76 | the chosen star belongs to the cell and no star of the cell is rarer |
| Thinning.ThinCell | 2_GAIA_Plus_Thined.py:59-77 | a cell yields a star exactly when some star has its key; that star is one of the catalogue's stars in that cell |
| Thinning.LocalStars | 2_GAIA_Plus_Thined.py:69-75 | the cell's star list is non-empty exactly when the key occurs in the catalogue |
| Thinning.ThinKeys | 2_GAIA_Plus_Thined.py:59-77 | the loop succeeds exactly when every block does; each output pair is a key and one of its stars |
| Thinning.ThinKeysCovers | 2_GAIA_Plus_Thined.py:59-77 | when every key is occupied, the output cells are exactly the keys visited, in order |
| Thinning.Thin | 2_GAIA_Plus_Thined.py:56-77 | thinning succeeds exactly when every occupied key has an encodable block; each output star lies in its cell |
| Thinning.ThinCells | 2_GAIA_Plus_Thined.py:59 | the output cells are the distinct occupied keys in order of first appearance |
| Thinning.OnePerCell | 2_GAIA_Plus_Thined.py:59-77 | no cell appears twice in the output, and cells come in first-appearance order |
| Thinning.KeepsRarest | 2_GAIA_Plus_Thined.py:71-77 | no star of the cell has a higher rarity score than the one kept |
| Thinning.KeepsLeastCommon | 2_GAIA_Plus_Thined.py:64-77 | the kept star's combination is no more common in the neighbourhood than any other star's in the cell |
| Thinning.CentreCounted | 2_GAIA_Plus_Thined.py:60-66 | the cell's own stars are counted in their neighbourhood, so each has a count of at least 1 |
| Thinning.CanonicalKeyIsCentre | 2_GAIA_Plus_Thined.py:37-54 | a key produced by `encode_2d` decodes to its cell and is the centre of its own block |
| LinkMap.TiersPartition | 3_ES-MakeLinkMap2.py:85-89 | every peak is in exactly one tier and the tier sizes add up to the number of peaks |
| LinkMap.PairsFrom | 3_ES-MakeLinkMap2.py:99-102 | the inner loop adds an edge for exactly the later rivers closer than 50 |
| LinkMap.RiverLinksFrom | 3_ES-MakeLinkMap2.py:98-102 | the river edges are exactly the pairs i < j closer than 50, weighted by their distance |
| LinkMap.RiverLinkIff | 3_ES-MakeLinkMap2.py:98-102 | two rivers are linked exactly when their Manhattan distance is below 50 |
| LinkMap.RiverLinkPositions | 3_ES-MakeLinkMap2.py:98-102 | a river edge between two keys comes from those two rivers |
| LinkMap.Nearest | 3_ES-MakeLinkMap2.py:106-112 | the nearest target is at minimum distance, and it is the first target at that distance |
| LinkMap.LinkToNearest | 3_ES-MakeLinkMap2.py:105-114 | an edge is added exactly when there is a target, the nearest one's key is non-empty, and it is within the limit; the edge goes to that target |
| LinkMap.Somes | 3_ES-MakeLinkMap2.py:105-127 | the edges collected are exactly those the sources produced |
| LinkMap.CreekAtMostOne | 3_ES-MakeLinkMap2.py:105-114 | every creek edge is the single nearest-river edge of some creek |
| LinkMap.LinkGraph | 3_ES-MakeLinkMap2.py:93-127 | the graph's nodes are exactly the peaks' keys |
| LinkMap.EdgesAreDistances | 3_ES-MakeLinkMap2.py:98-127 | every edge joins two peaks, is weighted by their Manhattan distance, and ends at nodes of the graph |
| LinkMap.EdgeEnds | 3_ES-MakeLinkMap2.py:87-127 | every edge starts at a peak of some tier; a river or creek links to a river, and a brook to a creek or a river |
| LinkMap.RiverEnds | 3_ES-MakeLinkMap2.py:98-102 | each river edge joins two rivers at their distance |
| LinkMap.LinkEnds | 3_ES-MakeLinkMap2.py:105-127 | each nearest-target edge joins a source to a target at their distance |
| LinkMap.NoCreekCreekOrBrookBrook | 3_ES-MakeLinkMap2.py:87-127 | with distinct keys, no edge joins two creeks or two brooks |
| Naming.ToRoman | 4_ES_Make_SYS_FromCustomCsv.py:38-48 | the numeral is empty exactly when the number is not positive |
| Naming.RomanRoundTrip | 4_ES_Make_SYS_FromCustomCsv.py:38-48 | reading the numeral back gives the number |
| Naming.RomanAlphabet | 4_ES_Make_SYS_FromCustomCsv.py:40-42 | numerals use only I, V, X, L, C, D, M |
| Naming.ToRomanCanonical | 4_ES_Make_SYS_FromCustomCsv.py:38-48 | the greedy numeral is the standard digit-by-digit numeral: thousands as M, then hundreds, tens and units |
| Naming.GreedyFromDigits | 4_ES_Make_SYS_FromCustomCsv.py:38-48 | the greedy loop spells each decimal digit with its own symbols |
| Naming.Prefix | 4_ES_Make_SYS_FromCustomCsv.py:54 | `name[:max_len]` is a prefix of length min(m, n), or n + m clamped at 0 for a negative m |
| Naming.Keep | 4_ES_Make_SYS_FromCustomCsv.py:53 | the result has no spaces and only word characters, whitespace and '-' |
| Naming.SanitizeName | 4_ES_Make_SYS_FromCustomCsv.py:51-54 | the result is clean, fits the length limit and has no outer whitespace |
| Naming.SanitizeFixpoint | 4_ES_Make_SYS_FromCustomCsv.py:51-54 | a name that is already clean, short enough and stripped is unchanged |
| Naming.SanitizeIdempotent | 4_ES_Make_SYS_FromCustomCsv.py:51-54 | sanitising twice is the same as sanitising once |
| Naming.PickOf | 4_ES_Make_SYS_FromCustomCsv.py:57-66 | a usable SIMBAD name wins, then a non-empty `Name_two`; otherwise the sector fallback is used |
| Naming.Assign | 4_ES_Make_SYS_FromCustomCsv.py:63-73 | a given name is sanitised and the counter is unchanged; a fallback takes the sector's current count, which then goes up by one |
| Naming.GivenNameShape | 4_ES_Make_SYS_FromCustomCsv.py:63-66 | a name taken from the catalogue is clean and at most 20 characters |
| Naming.FallbackNameShape | 4_ES_Make_SYS_FromCustomCsv.py:71 | a fallback name is the sector, '-', and at least four digits spelling the count |
| Naming.FallbackNameInjective | 4_ES_Make_SYS_FromCustomCsv.py:71 | equal fallback names have equal sector and count |
| Naming.FallbackNamesDiffer | 4_ES_Make_SYS_FromCustomCsv.py:71 | different (sector, count) pairs give different fallback names |
| Naming.AssignAll | 4_ES_Make_SYS_FromCustomCsv.py:57-73 | naming a sequence of rows gives one name per row |
| Naming.SystemNames | 4_ES_Make_SYS_FromCustomCsv.py:57-73 | naming a sequence of rows gives one name per row |
| Naming.AssignAllCounter | 4_ES_Make_SYS_FromCustomCsv.py:68-72 | a sector's counter grows by exactly the number of fallbacks named in it |
| Naming.SystemNamesCounter | 4_ES_Make_SYS_FromCustomCsv.py:68-72 | after naming rows, a sector's counter has grown by the number of its fallback rows |
| Naming.FallbackNamesDistinct | 4_ES_Make_SYS_FromCustomCsv.py:68-73 | two rows that both fall back get different names |
| Rng.ReduceIsMod | 4_ES_Make_SYS_FromCustomCsv.py:151-153 | a raw draw selects the outcome at its residue |
| Rng.RandInt | 4_ES_Make_SYS_FromCustomCsv.py:151 | `randint(a, b)` lies in [a, b], both ends included, and uses one draw |
| Rng.RandIntReaches | 4_ES_Make_SYS_FromCustomCsv.py:151 | every integer of [a, b] can be drawn |
| Rng.Uniform | 4_ES_Make_SYS_FromCustomCsv.py:154 | `uniform(lo, hi)` lies between the bounds in either order and uses one draw |
| Rng.UniformReaches | 4_ES_Make_SYS_FromCustomCsv.py:154 | every real between the bounds can be drawn |
| Rng.Choice | 4_ES_Make_SYS_FromCustomCsv.py:153 | `choice(s)` is an element of s and uses one draw |
| Rng.ChoiceReaches | 4_ES_Make_SYS_FromCustomCsv.py:153 | every element can be chosen |
| Rng.Poisson | 4_ES_Make_SYS_FromCustomCsv.py:405 | `np.random.poisson` reads NumPy's stream only, leaving Python's untouched; a zero mean gives 0 and takes no sample |
| Rng.PoissonReaches | 4_ES_Make_SYS_FromCustomCsv.py:405 | with a non-zero mean every count can be drawn |
| Stars.StarAttributes | 4_ES_Make_SYS_FromCustomCsv.py:76-88 | a giant is a "giant star" exactly when its class is in O, B, F, G, K, M, and a "supergiant star" otherwise; a dwarf is randomly a "dwarf star" or a "small star" and is the only case that draws; other types are described by class |
| Stars.StarParams | 4_ES_Make_SYS_FromCustomCsv.py:91-103 | distance and period lie in the type's ranges, the offset in [0, 360], and exactly three draws are taken |
| Stars.Matching | 4_ES_Make_SYS_FromCustomCsv.py:108 | only rows of the requested class are kept |
| Stars.MatchingComplete | 4_ES_Make_SYS_FromCustomCsv.py:108 | every row of the requested class is kept |
| Stars.StarData | 4_ES_Make_SYS_FromCustomCsv.py:106-112 | with a matching row, the result is a random row of that class; otherwise it is the first row, without a draw |
| Stars.StarDataHabitability | 4_ES_Make_SYS_FromCustomCsv.py:337-340 | when habitability depends only on the class, the draw does not affect the star's habitability |
| Stars.StarImageClassConstant | endless_sky_data.py:425-447 | `star_image` is non-empty and its habitability depends only on the class |
| Planets.Unlisted | 4_ES_Make_SYS_FromCustomCsv.py:120-123 | classes E and T2 are in no category list, so they are never spawned |
| Planets.Admitted | 4_ES_Make_SYS_FromCustomCsv.py:133-142 | only classes whose orbit overlaps the band and whose category the zone allows are admitted |
| Planets.AdmittedComplete | 4_ES_Make_SYS_FromCustomCsv.py:133-142 | every such class is admitted |
| Planets.Compatible | 4_ES_Make_SYS_FromCustomCsv.py:133-142 | `compatible_classes` lists the ids of the admitted classes, in table order |
| Planets.CompatibleMeans | 4_ES_Make_SYS_FromCustomCsv.py:133-142 | an id is compatible exactly when some class in the table with that id is admitted |
| Planets.Pool | 4_ES_Make_SYS_FromCustomCsv.py:153 | the pool holds only compatible ids of the category |
| Planets.PoolComplete | 4_ES_Make_SYS_FromCustomCsv.py:153 | every compatible id of the category is in the pool |
| Planets.SpawnMany | 4_ES_Make_SYS_FromCustomCsv.py:151-154 | k planets are spawned when the compatible list is non-empty and none otherwise; each is from the pool and lies in the band |
| Planets.SpawnCategory | 4_ES_Make_SYS_FromCustomCsv.py:145-164 | the number spawned is the `randint(0, min(cap, pool size))` drawn, and each planet is from the pool and lies in the band |
| Planets.SpawnZone | 4_ES_Make_SYS_FromCustomCsv.py:133-164 | each category's planets respect that category's cap and pool |
| Planets.ScaledBand | 4_ES_Make_SYS_FromCustomCsv.py:129-130 | a positive scale keeps a band's bounds in order |
| Planets.Visited | 4_ES_Make_SYS_FromCustomCsv.py:126-128 | only zones other than the asteroid belt are visited |
| Planets.VisitedComplete | 4_ES_Make_SYS_FromCustomCsv.py:126-128 | every zone other than the belt is visited |
| Planets.SpawnZones | 4_ES_Make_SYS_FromCustomCsv.py:124-165 | one batch per visited zone |
| Planets.SpawnZonesBatch | 4_ES_Make_SYS_FromCustomCsv.py:124-165 | the i-th batch is spawned in the i-th visited zone and respects its caps |
| Planets.Flatten | 4_ES_Make_SYS_FromCustomCsv.py:151-164 | the planet list has one entry per spawned planet |
| Planets.FlattenFrom | 4_ES_Make_SYS_FromCustomCsv.py:151-164 | every planet in the list comes from some batch and category |
| Planets.GeneratePlanets | 4_ES_Make_SYS_FromCustomCsv.py:115-167 | the planets are those of the batches of the scaled zones |
| Planets.ScaledZones | 4_ES_Make_SYS_FromCustomCsv.py:124-130 | the zones in processing order, each band multiplied by the scale |
| Planets.BatchPlanet | 4_ES_Make_SYS_FromCustomCsv.py:133-164 | a spawned planet's class is compatible with its zone and in its category, is never E or T2, and its distance lies in the band |
| Planets.VisitedUpToBelt | 4_ES_Make_SYS_FromCustomCsv.py:124-128 | when only the last zone is the belt, the visited zones are all the others |
| Planets.OrderedBands | endless_sky_data.py:4-94 | the seven zones, in processing order, all have a proper band |
| Planets.VisitedZones | 4_ES_Make_SYS_FromCustomCsv.py:124-128 | the generator visits the first six zones in processing order, skipping the belt |
| Planets.GeneratedBatch | 4_ES_Make_SYS_FromCustomCsv.py:124-165 | each batch belongs to one of the first six scaled zones |
| Planets.GeneratedPlanet | 4_ES_Make_SYS_FromCustomCsv.py:115-167 | every generated planet comes from one of those six zones with a compatible class, and is never E or T2 |
| SkyData.ZoneOrdersDistinct | endless_sky_data.py:4-94 | no two zones share a processing order |
| SkyData.ZonesByOrderIsSorted | 4_ES_Make_SYS_FromCustomCsv.py:124 | the zone list sorted by processing order holds every zone, in strictly rising order |
| SkyData.ZonesByOrderPermutes | 4_ES_Make_SYS_FromCustomCsv.py:124 | the sorted zone list holds every zone |
| SkyData.ZonesByOrderRises | 4_ES_Make_SYS_FromCustomCsv.py:124 | processing orders rise along the sorted list |
| SkyData.BeltLast | endless_sky_data.py:4-94 | the asteroid belt is the last zone in processing order and the only belt |
| SkyData.ZoneBands | endless_sky_data.py:4-94 | every band is proper, and the asteroid belt overlaps the snow line |
| SkyData.AsteroidBeltCaps | endless_sky_data.py:30-41 | the asteroid belt allows no planets of any category |
| SkyData.PlanetClassesWellFormed | endless_sky_data.py:97-422 | class ids are distinct, every orbital range is proper and every class has a sprite |
| SkyData.ClassIdsAscending | endless_sky_data.py:97-422 | class ids are listed in strictly ascending order, so none repeats |
| SkyData.ClassBands | endless_sky_data.py:97-422 | every planet class has a proper orbital range and at least one sprite |
| SkyData.HabitableClasses | endless_sky_data.py:97-422 | the classes with base habitability of 3000 or more are G, H, K, L, M, O and R |
| SkyData.StarImageLayout | endless_sky_data.py:425-447 | `star_image` has 21 rows; row i has class i / 3 in O–M order and type i mod 3 in giant, normal, dwarf order, and has a sprite |
| SkyData.StarImageByClass | endless_sky_data.py:425-447 | the rows come in seven classes of three types each |
| SkyData.StarImageHotRows | endless_sky_data.py:425-447 | rows 0–11 are classes O, B, A and F, each with a giant, a normal and a dwarf row that has a sprite |
| SkyData.StarImageCoolRows | endless_sky_data.py:425-447 | rows 12–20 are classes G, K and M, each with a giant, a normal and a dwarf row that has a sprite |
| SkyData.StarHabitabilityByClass | endless_sky_data.py:425-447 | rows of the same class have the same habitability |
| SkyData.StarHabitabilityRows | endless_sky_data.py:425-447 | the base habitability of classes O, B, A, F, G, K, M is 100, 200, 300, 600, 1000, 800, 500 |
| SkyData.TradeGoodsShape | endless_sky_data.py:450-454 | ten distinct goods, already sorted; only "Heavy Metals" and "Luxury Goods" contain a space |
| SkyData.ValidMinablesShape | endless_sky_data.py:463-466 | twelve distinct minables, already sorted |
| Landing.Lookup | 4_ES_Make_SYS_FromCustomCsv.py:368-371 | the class found has the requested id; none is found only when no class has it |
| Landing.Qualifying | 4_ES_Make_SYS_FromCustomCsv.py:366-374 | only planets that qualify are kept |
| Landing.QualifyingComplete | 4_ES_Make_SYS_FromCustomCsv.py:366-374 | every planet that qualifies is kept |
| Landing.Landable | 4_ES_Make_SYS_FromCustomCsv.py:366-378 | landable planets are planets of the system |
| Landing.LandableMeans | 4_ES_Make_SYS_FromCustomCsv.py:366-378 | a planet is landable exactly when it qualifies, or when nothing qualifies and it is the first planet |
| Landing.LandableExists | 4_ES_Make_SYS_FromCustomCsv.py:376-378 | there is a landable planet exactly when there is a planet |
| Landing.QualifiesByHabitability | 4_ES_Make_SYS_FromCustomCsv.py:373 | with the real class table, the M/G/L exception changes nothing: a planet qualifies exactly when its class has habitability of 3000 or more |
| Landing.PlanetName | 4_ES_Make_SYS_FromCustomCsv.py:387 | the planet name is longer than the system name plus the dash exactly when the index is positive |
| Landing.Entries | 4_ES_Make_SYS_FromCustomCsv.py:380-413 | the naming loop skips unlisted classes; each entry is named exactly when its planet is landable |
| Landing.EntriesNamed | 4_ES_Make_SYS_FromCustomCsv.py:380-413 | every name given is the system name, '-', and the numeral of a positive index |
| Landing.EntriesIndexed | 4_ES_Make_SYS_FromCustomCsv.py:380-413 | when nothing is skipped, the i-th entry is the i-th planet, and a landable one is named after index start + i |
| Landing.NamedEntries | 4_ES_Make_SYS_FromCustomCsv.py:380-413 | one entry per planet; the i-th is named `{system}-{roman(i+1)}` exactly when it is landable; some planet is named whenever there is one |
| Landing.PlanetNamesDistinct | 4_ES_Make_SYS_FromCustomCsv.py:387 | different indices give different planet names |
| Landing.Landed | 4_ES_Make_SYS_FromCustomCsv.py:388-390 | nothing is added when no entry is landable |
| Landing.LandedIsSum | 4_ES_Make_SYS_FromCustomCsv.py:380-390 | the loop's habitability total is the sum of the base habitabilities of the listed landable planets |
| Bodies.PrimaryStar | 4_ES_Make_SYS_FromCustomCsv.py:337-348 | the primary is a table row (of the requested class when there is one) with one of its sprites, a description, and an orbit in range |
| Bodies.Companion | 4_ES_Make_SYS_FromCustomCsv.py:351-360 | the companion has a sprite of some row; its distance is pushed out by 10 to 50, its period doubled and its offset turned by up to 180 |
| Bodies.MoonZone | 4_ES_Make_SYS_FromCustomCsv.py:401-404 | the zone found holds the planet in its scaled band; none is found only when no zone holds it |
| Bodies.MoonZoneFirst | 4_ES_Make_SYS_FromCustomCsv.py:402-404 | the zone found is the first in table order that holds the planet |
| Bodies.MoonCount | 4_ES_Make_SYS_FromCustomCsv.py:402-405 | outside every zone, or in a zone whose mean is zero, there are no moons and no draw; inside a zone with a non-zero mean, one NumPy draw |
| Bodies.Moons | 4_ES_Make_SYS_FromCustomCsv.py:406-410 | that many moons, each with sprite variant 0 to 3, distance 0.1 to 0.5 and period 10 to 50, taking three draws each |
| Bodies.PlanetBody | 4_ES_Make_SYS_FromCustomCsv.py:392-411 | the planet object keeps the entry's name, has a sprite of its class, distance AU × 100 and period 100 to 1000; it has moons only inside a zone whose mean is non-zero |
| Bodies.MoonlessZones | 4_ES_Make_SYS_FromCustomCsv.py:402-405 | with the real zone table, a planet first held by the inner rocky zone or the asteroid belt, whose mean is 0, has no moons |
| Bodies.PlanetBodies | 4_ES_Make_SYS_FromCustomCsv.py:381-413 | one object per entry, in order, with its name, sprite, period and moons in range |
| Bodies.StationBody | 4_ES_Make_SYS_FromCustomCsv.py:415-420 | the station's variant is 0 to 2, its distance 500 to 1000 and its period 500 to 1500, taking three draws |
| SystemGen.BeltRadius | 4_ES_Make_SYS_FromCustomCsv.py:432 | the belt radius lies between 1000 × scale and 3000 × scale |
| SystemGen.Asteroids | 4_ES_Make_SYS_FromCustomCsv.py:441-445 | n asteroid lines, each with a listed type, a count of 1 to 50 and a speed of 1 to 6 |
| SystemGen.AnyInBand | 4_ES_Make_SYS_FromCustomCsv.py:437-439 | true exactly when some planet lies in the band |
| SystemGen.AsteroidField | 4_ES_Make_SYS_FromCustomCsv.py:435-445 | 2 to 5 asteroid lines, or 3 to 8 when some planet lies in the scaled belt band |
| SystemGen.MinableKinds | 4_ES_Make_SYS_FromCustomCsv.py:448-450 | only valid minables that were found are kept |
| SystemGen.MinableKindsComplete | 4_ES_Make_SYS_FromCustomCsv.py:448-450 | every valid minable that was found is kept |
| SystemGen.MinableKindsAscending | 4_ES_Make_SYS_FromCustomCsv.py:450 | an ascending list of valid minables gives ascending kinds |
| SystemGen.MinablesSorted | 4_ES_Make_SYS_FromCustomCsv.py:448-450 | sorting the found valid minables gives the valid list filtered by what was found |
| SystemGen.MinableDraws | 4_ES_Make_SYS_FromCustomCsv.py:451-454 | one line per kind, in order, with count 1 to 20 and speed 2 to 6 |
| SystemGen.QuoteMeans | 4_ES_Make_SYS_FromCustomCsv.py:459 | a good is quoted exactly when it contains a space, and unquoting gives it back |
| SystemGen.TradeLines | 4_ES_Make_SYS_FromCustomCsv.py:457-460 | one line per good with its possibly quoted token and a value of 200 to 600 |
| SystemGen.QuotedGoods | 4_ES_Make_SYS_FromCustomCsv.py:459 | each good's token is quoted exactly when the good contains a space |
| SystemGen.TradeTokens | 4_ES_Make_SYS_FromCustomCsv.py:457-460 | of the real goods, only "Heavy Metals" and "Luxury Goods" are quoted |
| SystemGen.GoodsSorted | 4_ES_Make_SYS_FromCustomCsv.py:457 | sorting the real goods leaves them unchanged |
| SystemGen.NoQuoteInGoods | endless_sky_data.py:450-454 | no good contains a quote character |
| SystemGen.DataUsable | endless_sky_data.py:4-466 | the real tables meet everything the generator needs |
| SystemGen.StarStage | 4_ES_Make_SYS_FromCustomCsv.py:337-360 | the primary is the row `get_star_data` picks; there are two stars exactly for a binary, the primary first |
| SystemGen.PlanetStage | 4_ES_Make_SYS_FromCustomCsv.py:363-413 | the planets are generated, filtered for landing and named, with one object per entry carrying its name |
| SystemGen.ExtraStage | 4_ES_Make_SYS_FromCustomCsv.py:432-460 | the belt radius, the asteroid-count bounds, the minable kinds, and one trade line per sorted good |
| SystemGen.Generate | 4_ES_Make_SYS_FromCustomCsv.py:326-472 | the system takes the name, and the counter advances, as the row's name choice decides; stars, planets, habitability, fleets, trade lines, sorted minables and the asteroid count of a generated system, each as the stages define them |
| SystemGen.SpawnedListed | 4_ES_Make_SYS_FromCustomCsv.py:363-371 | every spawned planet's class is in the class table |
| SystemGen.GeneratedListed | 4_ES_Make_SYS_FromCustomCsv.py:363-384 | no spawned planet is skipped by the naming loop |
| SystemGen.PlanetsNamed | 4_ES_Make_SYS_FromCustomCsv.py:380-413 | one object per planet; the i-th is named `{system}-{roman(i+1)}` exactly when landable; some planet is named whenever there is one |
| Render.StarsTop | 4_ES_Make_SYS_FromCustomCsv.py:343-360 | each star gives exactly one top-level object and no nested one |
| Render.MoonsNested | 4_ES_Make_SYS_FromCustomCsv.py:406-410 | each moon gives exactly one nested object and no top-level one |
| Render.PlanetsTop | 4_ES_Make_SYS_FromCustomCsv.py:392-412 | each planet gives one top-level object, and its moons give the nested ones |
| Render.RenderObjects | 4_ES_Make_SYS_FromCustomCsv.py:424-472 | a definition has one top-level object per star and per planet plus the station, and one nested object per moon |
| Render.Sections | 4_ES_Make_SYS_FromCustomCsv.py:424-472 | the definition is its six sections in order, ending with trade, fleets and objects |
| Render.RenderTrade | 4_ES_Make_SYS_FromCustomCsv.py:456-460 | the trade lines of the definition are exactly the system's trade lines, in order |
| Render.RenderFleets | 4_ES_Make_SYS_FromCustomCsv.py:462-467 | the fleet lines of the definition are exactly the system's fleets, in order |
| Render.PlanetNotStation | 4_ES_Make_SYS_FromCustomCsv.py:387-417 | no planet name equals the station's name |
| Render.PlanetsNoStation | 4_ES_Make_SYS_FromCustomCsv.py:392-417 | no planet object line is the station line |
| Render.MoonsOnlyNested | 4_ES_Make_SYS_FromCustomCsv.py:406-410 | no moon line is a top-level object |
| Render.StarsNoStation | 4_ES_Make_SYS_FromCustomCsv.py:343-360 | no star object line is the station line |
| Render.RenderStation | 4_ES_Make_SYS_FromCustomCsv.py:415-420 | a definition has exactly one station line |
| Render.GeneratedDefinition | 4_ES_Make_SYS_FromCustomCsv.py:326-472 | a generated definition opens with the `system` line of the chosen name, and has 1 or 2 stars plus one top-level object per planet and one station; exactly one station line; one trade line per good; the three fleets |
| Text.Strip | 4.1_ES_Make_SYS_FromCustomCsv_JSON.py:44 | `str.strip`: the result is a slice of the input with only whitespace before and after it, and it neither starts nor ends with whitespace; whitespace is Python's `isspace` set |
| Text.Split | 4.1_ES_Make_SYS_FromCustomCsv_JSON.py:71 | `str.split(sep)` gives at least one part, and no part contains the separator |
| Text.SplitJoin | 4.1_ES_Make_SYS_FromCustomCsv_JSON.py:71 | joining the parts with the separator gives the text back |
| Text.RStripChar | 1_GAIA_Plus_Create_CSV.py:38 | `rstrip('=')` removes exactly the trailing run of the character |
| Text.NatToDecimal | 1_GAIA_Plus_Create_CSV.py:511-512 | `str(n)` is a non-empty string of digits |
| Text.DecimalRoundTrip | 1_GAIA_Plus_Create_CSV.py:511-512 | reading the digits of `str(n)` gives n |
| Text.ZFill | 1_GAIA_Plus_Create_CSV.py:511-512 | `zfill(w)` left-pads with '0' to length max(w, n) and keeps the text as the suffix |
| Text.PaddedDecimalInjective | 1_GAIA_Plus_Create_CSV.py:511-512 | different numbers give different zero-filled strings |
| Text.ParseInt | 4.1_ES_Make_SYS_FromCustomCsv_JSON.py:51 | `int(s)` succeeds exactly when the text, with the whitespace `int()` ignores trimmed from both ends, is digits, optionally after one '+' or '-', and its value is those digits' value, negated after '-' |
| Text.ParseIntRoundTrip | 4.1_ES_Make_SYS_FromCustomCsv_JSON.py:51 | `int(str(i)) == i` for every integer, negative ones included, with any whitespace `int()` ignores around the text |
| Text.IntSpaceIsSpace | 4.1_ES_Make_SYS_FromCustomCsv_JSON.py:51 | the whitespace `int()` ignores is the `isspace` set without the separators 0x1C-0x1F |
| Text.ParseIntRejectsSeparator | 4.1_ES_Make_SYS_FromCustomCsv_JSON.py:50-53 | a separator 0x1C-0x1F before or after a number makes `int()` fail, so the position is left unset |
| Text.ParseIntDecimal | 4.1_ES_Make_SYS_FromCustomCsv_JSON.py:51 | `int(str(n)) == n` |
| Text.Sort | 4_ES_Make_SYS_FromCustomCsv.py:450 | `sorted` returns a permutation of its input |
| Text.SortOrdered | 4_ES_Make_SYS_FromCustomCsv.py:450 | the result of `sorted` is in order |
| Text.SortAscending | 4_ES_Make_SYS_FromCustomCsv.py:457 | sorting an already strictly ascending list leaves it unchanged |
| Common.Unique | 2_GAIA_Plus_Thined.py:59 | pandas `unique` has no duplicates and the same elements as its input |
| Common.UniqueOrder | 2_GAIA_Plus_Thined.py:59 | the distinct values keep their order of first appearance |
| Common.ValueCounts | 1_GAIA_Plus_Create_CSV.py:508 | `value_counts` maps each value present to its number of occurrences |
| Topology.Ensure | 4.1_ES_Make_SYS_FromCustomCsv_JSON.py:45-46 | an absent name gets a new placeholder appended to the order; existing systems are kept |
| Topology.Position | 4.1_ES_Make_SYS_FromCustomCsv_JSON.py:50-53 | the position is set exactly when both coordinates parse as integers |
| Topology.FirstRow | 4.1_ES_Make_SYS_FromCustomCsv_JSON.py:43-61 | a row creates or updates only its own system: a position that parses replaces the old one, and a non-empty government or star replaces the old one |
| Topology.FirstPass | 4.1_ES_Make_SYS_FromCustomCsv_JSON.py:40-61 | the first pass yields a consistent registry |
| Topology.FirstPassSystems | 4.1_ES_Make_SYS_FromCustomCsv_JSON.py:40-61 | after the first pass, the systems are exactly the rows' names; each has the last parsed position and the last non-empty government and star of its rows, and no links |
| Topology.AppendNew | 4.1_ES_Make_SYS_FromCustomCsv_JSON.py:75-76 | appending new links keeps the old ones, adds the new ones, and creates no duplicates |
| Topology.AppendNewUnique | 4.1_ES_Make_SYS_FromCustomCsv_JSON.py:75-76 | appending new links to a deduplicated list deduplicates the concatenation |
| Topology.AppendNewAppend | 4.1_ES_Make_SYS_FromCustomCsv_JSON.py:72-76 | adding two batches of links one after the other is the same as adding their concatenation |
| Topology.AddLink | 4.1_ES_Make_SYS_FromCustomCsv_JSON.py:73-76 | one link creates a placeholder target if needed and extends only the source's links |
| Topology.AddLinks | 4.1_ES_Make_SYS_FromCustomCsv_JSON.py:71-76 | a row's links create placeholders for new targets and extend only the source's links |
| Topology.SecondRow | 4.1_ES_Make_SYS_FromCustomCsv_JSON.py:66-76 | a row fails (`KeyError`) exactly when its name is unknown; otherwise only its own links change, and new targets are placeholders |
| Topology.SecondPass | 4.1_ES_Make_SYS_FromCustomCsv_JSON.py:63-76 | the second pass keeps the registry consistent |
| Topology.SecondPassKeys | 4.1_ES_Make_SYS_FromCustomCsv_JSON.py:63-76 | when every row's name is known, the pass succeeds, and the systems are the old ones plus every link target |
| Topology.SecondPassKept | 4.1_ES_Make_SYS_FromCustomCsv_JSON.py:63-76 | a known system ends with its old links followed by the new items of its own rows, in order and without repeats |
| Topology.SecondPassFresh | 4.1_ES_Make_SYS_FromCustomCsv_JSON.py:63-76 | a system created by the second pass is a placeholder |
| Topology.LoadSpec | 4.1_ES_Make_SYS_FromCustomCsv_JSON.py:37-78 | loading never fails; the systems are the row names plus the link targets; a named system has its last position, government and star and the deduplicated links of its rows; other systems are placeholders |
| Topology.LoadClosed | 4.1_ES_Make_SYS_FromCustomCsv_JSON.py:63-78 | every link list is free of duplicates and points only at systems that exist |
| Topology.ToDict | 4.1_ES_Make_SYS_FromCustomCsv_JSON.py:27-34 | the record keeps name, star, government and links, and turns a position into a two-element list or None |
| Topology.DictRoundTrip | 4.1_ES_Make_SYS_FromCustomCsv_JSON.py:27-34 | the record of a system reads back as that system |
| Topology.Export | 4.1_ES_Make_SYS_FromCustomCsv_JSON.py:81-84 | one record per system, in insertion order, with distinct names |

## Left out

- Network and file I/O is left out: SIMBAD queries, reading and writing CSV and JSON, logging, plotting and `main()`. Rows arrive as values and the JSON output is a sequence of records.
- Floating-point astrophysics and coordinate work is left out: the catalogue's coordinate, colour and mass formulas, the grid and sector float-to-int conversions, and the gravity-map interpolation with its peak detection. Peaks and the two percentile thresholds are inputs of `LinkMap.LinkGraph`.
- The distance scale `sqrt(1000 / max(1, h))` is a parameter (`scaleOf`), since square roots of reals are not computed.
- Output formatting of reals (`:.2f`, `:.0f`, `:.1f`) is left out: lines keep reals.
- Rng.Uniform: the drawn real is clamped into the bounds, which is all Python promises up to rounding; the distribution is not modelled.
- Rng.Poisson: for a non-zero mean the count is any natural number from NumPy's stream; the distribution is not modelled. A negative mean, which NumPy rejects, does not occur in the zone table.
- Thinning.Rarest: `sort_values` is not a stable sort, so among equally rare stars the model keeps the first one; the source may keep another one of them.
- Base64.Decode: Python's non-strict `b64decode` skips characters outside the alphabet and stops at the first complete padded group even when more text follows (`"AA==AAAA"` decodes to one zero byte, `"AAA=AAAA"` to two); the model reports both as an error. Keys produced by the pipeline never contain such characters and carry '=' only at the end.
- Text.ParseInt: accepts a sign and ASCII digits after stripping; Python's `int` also accepts underscores between digits and non-ASCII digits.
- Naming.Keep: `\w` is taken as its ASCII meaning (letters, digits, '_'); Python's Unicode class is wider. `\s` is Python's full whitespace set.
- Naming.GaiaDr3Prefix: `\d` is taken as an ASCII digit; Python's Unicode class also matches other scripts' digits.
- Catalog.Quadrant: a missing longitude is taken as 0; a NaN longitude falls through every test to "4", which the model takes as given.
- A CSV row that lacks the `Name_two` column raises `KeyError` in the topology script; the model's rows always have every column.
- `generate_system_old` is an earlier version of `generate_system` that the script no longer calls; it is not part of this model.
- `landable_count` in `generate_system` is incremented but never read; it is not modelled.
- Topology.DictRoundTrip: it holds by construction of the record type, so it records the design rather than a proof.

## Findings

| source | as written | input that shows it | evidently intended | confidence | as-written member | corrected member |
|---|---|---|---|---|---|---|
| 1_GAIA_Plus_Create_CSV.py:26-27 | `encode_axis` encodes three bytes of 6 bits each and keeps only the first 3 of the 4 characters, so the low 6 bits of the coordinate are lost | x = 0 and x = 63 (with equal y and z) give the same cube code | an 18-bit value maps to 3 characters one-to-one, as the docstring's range 0–262,143 says | not executed | GridCodec.CubeCodeCollision | GridCodec.CubeIntendedRoundTrip |
| 1_GAIA_Plus_Create_CSV.py:353-356 | `teff > 30000` is O and `10000 <= teff < 30000` is B, so exactly 30000 matches neither and falls through to M | teff = 30000 gives M, while 29999 gives B | 30000 K belongs to O or B, so a hotter star never gets a cooler class | not executed | Catalog.ClassifyStarGap | Catalog.IntendedMonotone |
