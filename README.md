# Planet tracker core, in Dafny

The dashboard script `app.py` shows where a solar-system body sits in the sky (azimuth and elevation) for an observer's latitude and longitude. It also plots the body's path over the next twelve hours. This project models the parts of the script that have exact rules:

- **Bodies** (`Bodies.dfy`): the fixed table from eleven lower-case body names to DE421 ephemeris identifiers. It also models the case-insensitive lookup that `calcular_posicao` does before any astronomy (unknown names raise an invalid-body error) and the ten-entry selection menu, whose entries are capitalized for display and lowered again before use. The same table is restated as a closed `Body` type, and lemmas tie the two together.
- **Tracking** (`Tracking.dfy`): `calcular_posicao` as a function. The sampling grid of `gerar_trajetoria` is built from Python's `range(0, 60 * 12 + 1, 10)`. `gerar_trajetoria` itself is a method whose loop appends one row per grid instant.
- **Angles** (`Angles.dfy`): `graus_para_dms`, the decimal-degree to degree/minute/second split, over exact reals.
- **Wrappers** (`Wrappers.dfy`): the `Result` type that stands for "returns a value or raises".

Abstractions:
- An instant is a whole number of minutes on a UTC axis. The reading "now" is a parameter.
- The skyfield computation is a parameter `sky: (id, lat, lon, t) -> AltAz`. That computation covers the observer on Earth's surface, `observe`, `apparent` and `altaz`.
- Latitude and longitude are passed through unchecked, as in the script.
- `gerar_trajetoria` samples forward only, from now to now + 720 minutes (app.py:55). The window is not centred on now.

## Model

| member | source | states |
|---|---|---|
| `Angles.Trunc` | app.py:17 | `int()` on a float truncates toward zero: the result's magnitude is at most the input's and within 1 below it, and its sign is never opposite to the input's |
| `Angles.Abs` | app.py:18 | `abs` gives a non-negative value equal to x or to -x |
| `Angles.ToDms` | app.py:16-21 | degrees are the input truncated toward zero, minutes are in 0..59, seconds are in [0, 60), and abs(x) = abs(deg) + min/60 + sec/3600 exactly |
| `Angles.DmsUnique` | app.py:16-20 | any triple with those properties is the one the conversion returns, so the properties determine the result |
| `Angles.ReadingExact` | app.py:16-21 | for x <= -1 or x >= 0, reading the triple back with the degree field's sign gives x exactly |
| `Angles.SignLost` | app.py:17-21 | for -1 < x < 0 the degree field is 0 and the triple reads back as -x, never as x |
| `Angles.SignLostExample` | app.py:16-21 | -0.5 becomes (0, 30, 0), the same triple as +0.5 |
| `Angles.DefaultLatitudeExample` | app.py:16-21 | the default latitude -23.5505 becomes (-23, 33, 1.8) |
| `Angles.ToSignedDms` | app.py:16-21 | corrected conversion: the sign is its own flag (set exactly for x < 0), degrees are the truncated magnitude, minutes and seconds are in range |
| `Angles.SignedRoundTrip` | app.py:16-21 | the corrected conversion reads back to x exactly, for every x |
| `Angles.SignedAgreesOutsideUnit` | app.py:16-21 | outside (-1, 0) the corrected conversion shows the same degrees, minutes and seconds as the original |
| `Bodies.Lower` | app.py:43 | `.lower()` keeps the length and lowers each character on its own |
| `Bodies.LowerChar` | app.py:43 | lowering a character never leaves an upper-case letter; A..Z move to a..z; every other character is kept |
| `Bodies.UpperChar` | app.py:97 | upper-casing a character never leaves a lower-case letter; a..z move to A..Z; every other character is kept |
| `Bodies.Capitalize` | app.py:97 | `.capitalize()` keeps the length and every letter up to case; the first character is not lower case and no later character is upper case |
| `Bodies.LowerOfLowercase` | app.py:43 | a string with no upper-case letter is unchanged by lowering |
| `Bodies.LowerIdempotent` | app.py:43 | lowering twice is the same as lowering once |
| `Bodies.LowerCapitalize` | app.py:97 | lowering a capitalized name is the same as lowering the name |
| `Bodies.Table` | app.py:24-36 | the table of body names: no two names share an ephemeris identifier |
| `Bodies.Menu` | app.py:93-96 | the menu lists 10 entries, each a key of the table |
| `Bodies.Lookup` | app.py:43-46 | lookup succeeds exactly when the lowered name is a table key; otherwise it raises the invalid-body error with the caller's spelling |
| `Bodies.LookupCaseInsensitive` | app.py:43-44 | two names that agree after lowering both succeed with the same identifier, or both fail |
| `Bodies.LookupOfLowered` | app.py:43-44 | looking up a name that is already lowered (as the menu path does) agrees with looking up the raw name |
| `Bodies.Parse` | app.py:24-36 | parsing a lower-case name gives the body with that name, or fails only when no body has that name |
| `Bodies.Name` | app.py:24-36 | the closed type's name of each body is a key of the table |
| `Bodies.EphemerisId` | app.py:24-36 | the closed type's identifier of each body is what the table holds under its name |
| `Bodies.NameInjective` | app.py:24-36 | distinct bodies have distinct names |
| `Bodies.TableMatchesBodies` | app.py:24-36 | the table has one entry per body, holding that body's identifier, and every key is some body's name |
| `Bodies.LookupByBody` | app.py:24-46 | lookup succeeds exactly for names that lower to a body's name, and it then gives that body's identifier |
| `Bodies.LookupAnyCase` | app.py:24-44 | a body's name in any letter case is accepted with that body's identifier |
| `Bodies.LookupExamples` | app.py:24-46 | moon gives 301, Moon gives 301, JUPITER gives 5 and sun gives 10; xyz raises |
| `Bodies.NameIsLowercase` | app.py:24-36 | every table name is already in lower case |
| `Bodies.MenuEntriesValid` | app.py:93-97 | every menu entry, capitalized and lowered again, passes the lookup |
| `Bodies.MenuIsTableWithoutEarth` | app.py:93-96 | the menu lists 10 distinct names, which are exactly the table keys other than earth; earth is in the table but not in the menu |
| `Tracking.ComputePosition` | app.py:23-50 | when the name is valid the result is the ephemeris azimuth, the ephemeris elevation and the instant; otherwise it is the invalid-body error |
| `Tracking.PositionOfBody` | app.py:39-50 | for a known body in any letter case, the position is the ephemeris reading for that body's identifier |
| `Tracking.PositionOfUnknown` | app.py:43-46 | a name that is no body's raises and produces no position |
| `Tracking.Range` | app.py:55 | for a positive step, Python's `range` holds start + i*step at index i and is exactly long enough to reach the stop, which it excludes |
| `Tracking.Offsets` | app.py:55 | the minute offsets `range(0, 60 * 12 + 1, 10)` are 0, 10, ..., 720, which is 73 values |
| `Tracking.Grid` | app.py:55 | the list comprehension gives one instant per offset, in order, each being now plus that offset |
| `Tracking.GridShape` | app.py:54-55 | the grid holds 73 instants from now to now + 720, spaced 10 minutes apart and strictly increasing; it does not reach back before now |
| `Tracking.Trajectory` | app.py:52-62 | the trajectory succeeds exactly when the name is valid; row i holds grid instant i with the ephemeris azimuth and elevation at that instant; an invalid name returns the lookup error and no rows |
| `Tracking.MenuPositionSucceeds` | app.py:121 | a body picked from the menu always gets a position in the refresh loop |
| `Tracking.MenuTrajectory` | app.py:114 | a body picked from the menu always gets its full trajectory: 73 rows, row k at now + 10k minutes |

## Findings

| source | as written | input that shows it | evidently intended | confidence | as-written member | corrected member |
|---|---|---|---|---|---|---|
| app.py:17-21 | The sign is carried only by the degree field, so for an angle between -1 and 0 the displayed degrees are 0 and the sign disappears. | -0.5 (for example, an elevation half a degree below the horizon) is shown as 0° 30′ 0.00″, the same as +0.5 | a negative angle is shown as negative | medium, not executed | `Angles.SignLost` (with `Angles.ToDms`, `Angles.SignLostExample`) | `Angles.ToSignedDms` (with `Angles.SignedRoundTrip`) |

## Left out

- Streamlit page layout, widgets, the button, `st.success` and `placeholder.markdown`: presentation only.
- The endless `while True` refresh loop with `time.sleep(1)`: it is an unbounded polling loop around a single `calcular_posicao` call, and that call is modelled.
- `plotar_trajetoria` and matplotlib: presentation only.
- Loading and caching the ephemeris file (`load('de421.bsp')`, `@st.cache_resource`): file I/O and framework caching. The table of identifiers that indexes into the file is modelled.
- The skyfield calls (`Topos`, `observe`, `apparent`, `altaz`, `utc_iso`, `utc_datetime`): foreign library code, replaced by the `sky` parameter. No range is claimed for azimuth or elevation, because the script never checks one.
- `datetime.utcnow()`, `ts.utc` and `ts.now()`: clock reads. Now is a parameter, and instants are whole minutes.
- The pandas DataFrame: modelled as a sequence of `Row` records in the same order.
- `Angles.ToDms`: computes with exact reals, not doubles. It returns the three numeric fields rather than the `"{deg}° {min}′ {sec:.2f}″"` string. Because of this, it does not model float rounding or the `:.2f` rounding, which can print a seconds value just below 60 as "60.00".
- `Bodies.Lower`: lowers ASCII letters only, whereas Python's `str.lower` covers all of Unicode. Membership in the table is unaffected. All table keys are ASCII. The only non-ASCII character whose lower-case form is entirely ASCII is the Kelvin sign, which lowers to `k`, and no key contains `k`.
- `Bodies.Capitalize`: likewise ASCII only, so Unicode title case is not modelled.
- `Tracking.Range`: covers only positive steps, the only kind the script uses.
- The visibility flag ("Visible" when elevation > 0): it is not computed anywhere in this version of the script.
