/**
 * The `#[security_test]` attribute macro itself (`security_test`): from the
 * annotated function, the attribute text and the target OS, the items the
 * macro expands to, and what a reader of the named link section finds in
 * them.
 */
module Macro {
  import opened Text
  import opened Config

  /** Rust's `u64`. */
  newtype u64 = x: int | 0 <= x < 0x1_0000_0000_0000_0000

  /** The marker a scanner looks for in each record. */
  const Magic: u64 := 0xDEADBEEFCAFEBABE

  const MetadataPrefix: string := "__SECURITY_TEST_METADATA_"
  const ConfigStructName: string := "__SecurityTestConfig"
  const MetadataStructName: string := "__SecurityTestMetadata"

  const LinuxSection: string := ".security_tests"
  const MacOsSection: string := "__DATA,__sec_tests"
  const WindowsSection: string := ".sectests"

  datatype Option<T> = None | Some(value: T)

  /** The `target_os` the expansion is compiled for. */
  datatype TargetOs = Linux | MacOs | Windows | OtherOs(name: string)

  /**
   * The annotated function as the macro receives it: its identifier, and the
   * rest of its tokens (signature and body), which the macro never looks at.
   */
  datatype ItemFn = ItemFn(ident: string, tokens: string)

  /**
   * `f as *const fn() as usize`: the address of the named function, which
   * only exists at link time. Equal `AddressOf` values do not mean equal
   * addresses: same-named functions in different modules share one.
   */
  datatype Address = AddressOf(target: string)

  /** The generated `__SecurityTestMetadata` value. */
  datatype SecurityTestMetadata = SecurityTestMetadata(
    functionName: string,
    functionAddress: Address,
    testConfig: SecurityTestConfig,
    magic: u64)

  /** An item of the expansion. */
  datatype Item =
    | Function(f: ItemFn)
    | StructDecl(name: string)
    | Static(name: string, linkSection: Option<string>, used: bool, value: SecurityTestMetadata)

  /** Rust keeps types apart from functions and statics. */
  datatype Namespace = TypeNs | ValueNs

  /** The name an item defines in its module, and in which namespace. */
  function Declares(item: Item): (Namespace, string)
  {
    match item
    case Function(f) => (ValueNs, f.ident)
    case StructDecl(name) => (TypeNs, name)
    case Static(name, _, _, _) => (ValueNs, name)
  }

  /** No two items of a module define the same name in the same namespace, as rustc demands. */
  predicate DistinctDeclarations(items: seq<Item>)
  {
    forall i, j :: 0 <= i < j < |items| ==> Declares(items[i]) != Declares(items[j])
  }

  /** The `cfg_attr(target_os = …, link_section = …)` choice: one section per supported OS, none otherwise. */
  function LinkSection(os: TargetOs): (section: Option<string>)
    ensures section.Some? <==> !os.OtherOs?
  {
    match os
    case Linux => Some(LinuxSection)
    case MacOs => Some(MacOsSection)
    case Windows => Some(WindowsSection)
    case OtherOs(_) => None
  }

  /** Each supported OS has a section of its own. */
  lemma LinkSectionDistinct(a: TargetOs, b: TargetOs)
    requires LinkSection(a).Some? && LinkSection(a) == LinkSection(b)
    ensures a == b
  {
  }

  /** The identifier of the generated static: the prefix and the function name upper-cased. */
  function MetadataName(fnName: string): (name: string)
    ensures StartsWith(name, MetadataPrefix)
    ensures |name| == |MetadataPrefix| + |fnName|
    ensures forall i :: |MetadataPrefix| <= i < |name| ==> !IsAsciiLower(name[i])
    ensures forall i :: 0 <= i < |fnName| ==> name[|MetadataPrefix| + i] == ToAsciiUpper(fnName[i])
  {
    MetadataPrefix + ToUpper(fnName)
  }

  /**
   * Two functions get the same static name exactly when their names differ
   * in letter case only.
   */
  lemma MetadataNameCollision(a: string, b: string)
    ensures MetadataName(a) == MetadataName(b)
        <==> |a| == |b| && forall i :: 0 <= i < |a| ==> SameIgnoringCase(a[i], b[i])
  {
    if MetadataName(a) == MetadataName(b) {
      assert ToUpper(a) == MetadataName(a)[|MetadataPrefix|..];
      assert ToUpper(b) == MetadataName(b)[|MetadataPrefix|..];
    }
    ToUpperEqualIff(a, b);
  }

  /** `login` and `Login` collide. */
  lemma LoginCollidesWithCapitalised()
    ensures MetadataName("login") == MetadataName("Login")
  {
  }

  /** The record the macro embeds for `item` under the attribute `attr`. */
  function MetadataFor(attr: string, item: ItemFn): SecurityTestMetadata
  {
    SecurityTestMetadata(item.ident, AddressOf(item.ident), ParseSecurityConfig(attr), Magic)
  }

  /**
   * `security_test`: the original function, the two struct definitions, and
   * the `#[used]` static holding the record, placed in the OS's section.
   */
  function SecurityTest(attr: string, item: ItemFn, os: TargetOs): (expanded: seq<Item>)
    ensures |expanded| == 4
    ensures expanded[0] == Function(item)
    ensures forall i :: 0 < i < |expanded| ==> !expanded[i].Function?
    ensures expanded[3].Static? && expanded[3].name == MetadataName(item.ident)
    ensures expanded[3].used && expanded[3].linkSection == LinkSection(os)
    ensures expanded[3].value == MetadataFor(attr, item)
    ensures DistinctDeclarations(expanded)
  {
    [ Function(item),
      StructDecl(ConfigStructName),
      StructDecl(MetadataStructName),
      Static(MetadataName(item.ident), LinkSection(os), true, MetadataFor(attr, item)) ]
  }

  /**
   * What a scanner reading the link section `section` finds in `items`:
   * every kept static whose `link_section` is `section` and whose record
   * carries the magic marker, in order. Statics without a `link_section`
   * go to the compiler's default data section, which this does not read.
   */
  function RecordsIn(items: seq<Item>, section: string): (records: seq<SecurityTestMetadata>)
    ensures |records| <= |items|
    ensures forall m :: m in records ==> m.magic == Magic
  {
    if items == [] then []
    else
      var it := items[0];
      (if it.Static? && it.used && it.linkSection == Some(section) && it.value.magic == Magic
       then [it.value] else [])
      + RecordsIn(items[1..], section)
  }

  /** Sections merge: the records of two item lists linked together are those of each, in order. */
  lemma {:induction false} RecordsInConcat(x: seq<Item>, y: seq<Item>, section: string)
    ensures RecordsIn(x + y, section) == RecordsIn(x, section) + RecordsIn(y, section)
  {
    if x == [] {
      assert x + y == y;
    } else {
      assert (x + y)[0] == x[0];
      assert (x + y)[1..] == x[1..] + y;
      RecordsInConcat(x[1..], y, section);
    }
  }

  /**
   * The expansion holds one record, found in the OS's section with the
   * function's name, its address, the parsed attribute and the magic marker;
   * on any other OS the static carries no `link_section`, so no link
   * section holds it.
   */
  lemma SecurityTestRecords(attr: string, item: ItemFn, os: TargetOs, section: string)
    ensures RecordsIn(SecurityTest(attr, item, os), section)
         == if LinkSection(os) == Some(section) then [MetadataFor(attr, item)] else []
  {
    var e := SecurityTest(attr, item, os);
    assert e == [e[0], e[1], e[2]] + [e[3]];
    RecordsInConcat([e[0], e[1], e[2]], [e[3]], section);
    assert [e[0], e[1], e[2]][1..] == [e[1], e[2]];
    assert [e[1], e[2]][1..] == [e[2]];
    assert [e[2]][1..] == [];
    assert [e[3]][1..] == [];
    assert RecordsIn([e[2]], section) == [];
    assert RecordsIn([e[1], e[2]], section) == [];
    assert RecordsIn([e[0], e[1], e[2]], section) == [];
    assert e[3].value == MetadataFor(attr, item) && e[3].linkSection == LinkSection(os);
  }

  /** An annotated function: its attribute text and the function. */
  datatype Annotated = Annotated(attr: string, item: ItemFn)

  /** The expansions of several annotated functions, each in a module of its own, linked in order. */
  function ExpandAll(fns: seq<Annotated>, os: TargetOs): seq<Item>
  {
    if fns == [] then [] else SecurityTest(fns[0].attr, fns[0].item, os) + ExpandAll(fns[1..], os)
  }

  /**
   * After linking, the OS's section holds exactly one record per annotated
   * function, in link order.
   */
  lemma {:induction false} LinkedRecords(fns: seq<Annotated>, os: TargetOs)
    requires LinkSection(os).Some?
    ensures var records := RecordsIn(ExpandAll(fns, os), LinkSection(os).value);
      |records| == |fns|
      && forall i :: 0 <= i < |fns| ==> records[i] == MetadataFor(fns[i].attr, fns[i].item)
  {
    if fns != [] {
      var section := LinkSection(os).value;
      RecordsInConcat(SecurityTest(fns[0].attr, fns[0].item, os), ExpandAll(fns[1..], os), section);
      SecurityTestRecords(fns[0].attr, fns[0].item, os, section);
      LinkedRecords(fns[1..], os);
    }
  }

  /**
   * On an OS without a section the statics are still emitted, but without a
   * `link_section`: no link section of the linked program holds a record.
   */
  lemma {:induction false} NoRecordsWithoutSection(fns: seq<Annotated>, os: TargetOs, section: string)
    requires os.OtherOs?
    ensures RecordsIn(ExpandAll(fns, os), section) == []
  {
    if fns != [] {
      RecordsInConcat(SecurityTest(fns[0].attr, fns[0].item, os), ExpandAll(fns[1..], os), section);
      SecurityTestRecords(fns[0].attr, fns[0].item, os, section);
      NoRecordsWithoutSection(fns[1..], os, section);
    }
  }

  /**
   * Every expansion defines `__SecurityTestConfig` and `__SecurityTestMetadata`,
   * so two annotated functions in one module always define them twice.
   */
  lemma TwoInOneModuleClash(a: Annotated, b: Annotated, os: TargetOs)
    ensures !DistinctDeclarations(SecurityTest(a.attr, a.item, os) + SecurityTest(b.attr, b.item, os))
  {
    var items := SecurityTest(a.attr, a.item, os) + SecurityTest(b.attr, b.item, os);
    assert Declares(items[1]) == Declares(items[5]);
  }
}
