/**
 * The chained diagnostics of the decoder. An error is a node with a kind, a
 * sub-kind and an optional cause (`prev`); a chain reads from the outermost
 * wrapper down to the root cause.
 *
 * `Error` is the value a chain denotes; the decoder produces these.
 * `ErrorNode` is the heap node the C library allocates for each link, with its
 * base tag, its format/free implementation pair, the lazily cached message and
 * the recursive release.
 */
module Errors {
  import opened Wrappers

  /** The base tag stored in every node. */
  datatype ErrorType = TypeNone | TypeErrno | TypeRead | TypeUnmarshal

  datatype ReadType = ReadChildError | ReadEof

  datatype UnmarshalType =
    | UnmarshalReadError
    | UnmarshalChildError
    | SignatureMismatch
    | InvalidAttributeType

  /** What a node says about itself: an OS error number, or a read or unmarshal sub-kind. */
  datatype Kind =
    | Errno(number: int)
    | Read(readType: ReadType)
    | Unmarshal(unmarshalType: UnmarshalType)

  /** An error chain: this link's kind, then the error that caused it, if any. */
  datatype Error = Error(kind: Kind, prev: Option<Error>)

  /** The base tag a node of this kind carries. */
  function TagOf(k: Kind): ErrorType
  {
    match k
    case Errno(_) => TypeErrno
    case Read(_) => TypeRead
    case Unmarshal(_) => TypeUnmarshal
  }

  /** The innermost error of a chain: the one with no cause. */
  function Root(e: Error): (r: Error)
    ensures r.prev == None
    decreases e
  {
    match e.prev
    case None => e
    case Some(cause) => Root(cause)
  }

  /** The fixed message of a read error. */
  function ReadMessage(t: ReadType): string
  {
    match t
    case ReadChildError => "child read failed"
    case ReadEof => "unexpected end of file"
  }

  /** The fixed message of an unmarshal error. */
  function UnmarshalMessage(t: UnmarshalType): string
  {
    match t
    case UnmarshalReadError => "failed to read value"
    case UnmarshalChildError => "failed to unmarshal child"
    case SignatureMismatch => "signature mismatch"
    case InvalidAttributeType => "invalid attribute_type"
  }

  /** Each message names exactly one sub-kind, so a formatted message identifies its kind. */
  lemma MessagesIdentifyKind(t1: UnmarshalType, t2: UnmarshalType, r1: ReadType, r2: ReadType)
    ensures UnmarshalMessage(t1) == UnmarshalMessage(t2) <==> t1 == t2
    ensures ReadMessage(r1) == ReadMessage(r2) <==> r1 == r2
  {
  }

  /** The format/free function-pointer pair a node is built with: one per node type. */
  datatype Impl = ErrnoImpl | ReadImpl | UnmarshalImpl

  /** The implementation the constructors pair with each tag. */
  function ImplFor(k: Kind): Impl
  {
    match k
    case Errno(_) => ErrnoImpl
    case Read(_) => ReadImpl
    case Unmarshal(_) => UnmarshalImpl
  }

  /** The message a format implementation caches when none is cached yet. */
  function Cache(cached: Option<string>, message: string): Option<string>
  {
    if cached.None? then Some(message) else cached
  }

  /** An `error_t` variable whose address is handed to a reader or decoder. */
  class ErrorSlot {
    var value: Option<Error>

    /** `error_t local_err = NULL;` */
    constructor ()
      ensures value == None
    {
      value := None;
    }
  }

  /** One allocated link of an error chain. */
  class ErrorNode {
    var tag: ErrorType
    var impl: Impl
    var kind: Kind
    var prev: ErrorNode?
    var errorString: Option<string>
    /** Whether the node is still allocated. */
    ghost var live: bool
    /** The node and every node behind it. */
    ghost var Repr: set<ErrorNode>

    /** A well-formed, live, acyclic chain whose every node's tag agrees with its kind. */
    ghost predicate Valid()
      reads this, Repr
      decreases Repr
    {
      && this in Repr
      && live
      && tag == TagOf(kind)
      && (prev == null ==> Repr == {this})
      && (prev != null ==>
            && prev in Repr
            && this !in prev.Repr
            && Repr == {this} + prev.Repr
            && prev.Valid())
    }

    /** The chain value this node heads. */
    ghost function Chain(): Error
      reads this, Repr
      requires Valid()
      decreases Repr
    {
      Error(kind, if prev == null then None else Some(prev.Chain()))
    }

    /** The nodes of the chain, outermost first. */
    ghost function Nodes(): (ns: seq<ErrorNode>)
      reads this, Repr
      requires Valid()
      ensures |ns| >= 1 && ns[0] == this
      decreases Repr
    {
      [this] + (if prev == null then [] else prev.Nodes())
    }

    /** error_errno_new: a node for an OS error number. */
    constructor ErrnoNew(prev: ErrorNode?, number: int)
      requires prev != null ==> prev.Valid()
      ensures Valid()
      ensures tag == TypeErrno && impl == ErrnoImpl && kind == Errno(number)
      ensures this.prev == prev && errorString == None
      ensures Repr == {this} + (if prev == null then {} else prev.Repr)
      ensures Chain() == Error(Errno(number), if prev == null then None else Some(prev.Chain()))
    {
      tag, impl, kind := TypeErrno, ErrnoImpl, Errno(number);
      this.prev := prev;
      errorString := None;
      live := true;
      Repr := {this} + (if prev == null then {} else prev.Repr);
    }

    /** error_read_new: a read-error node of the given sub-kind. */
    constructor ReadNew(prev: ErrorNode?, t: ReadType)
      requires prev != null ==> prev.Valid()
      ensures Valid()
      ensures tag == TypeRead && impl == ReadImpl && kind == Read(t)
      ensures this.prev == prev && errorString == None
      ensures Repr == {this} + (if prev == null then {} else prev.Repr)
      ensures Chain() == Error(Read(t), if prev == null then None else Some(prev.Chain()))
    {
      tag, impl, kind := TypeRead, ReadImpl, Read(t);
      this.prev := prev;
      errorString := None;
      live := true;
      Repr := {this} + (if prev == null then {} else prev.Repr);
    }

    /** error_unmarshal_new: an unmarshal-error node of the given sub-kind. */
    constructor UnmarshalNew(prev: ErrorNode?, t: UnmarshalType)
      requires prev != null ==> prev.Valid()
      ensures Valid()
      ensures tag == TypeUnmarshal && impl == UnmarshalImpl && kind == Unmarshal(t)
      ensures this.prev == prev && errorString == None
      ensures Repr == {this} + (if prev == null then {} else prev.Repr)
      ensures Chain() == Error(Unmarshal(t), if prev == null then None else Some(prev.Chain()))
    {
      tag, impl, kind := TypeUnmarshal, UnmarshalImpl, Unmarshal(t);
      this.prev := prev;
      errorString := None;
      live := true;
      Repr := {this} + (if prev == null then {} else prev.Repr);
    }

    /**
     * error_errno_format_impl. The OS message lookup (strerror) is outside the
     * model and is passed in.
     */
    method FormatErrnoImpl(strerror: int -> string) returns (s: Option<string>)
      requires tag == TagOf(kind)
      modifies this`errorString
      ensures tag != TypeErrno ==> s == None && errorString == old(errorString)
      ensures tag == TypeErrno ==>
                errorString == Cache(old(errorString), strerror(kind.number)) && s == errorString
    {
      if tag != TypeErrno {
        return None;
      }
      if errorString == None {
        errorString := Some(strerror(kind.number));
      }
      s := errorString;
    }

    /** error_read_format_impl. */
    method FormatReadImpl() returns (s: Option<string>)
      requires tag == TagOf(kind)
      modifies this`errorString
      ensures tag != TypeRead ==> s == None && errorString == old(errorString)
      ensures tag == TypeRead ==>
                errorString == Cache(old(errorString), ReadMessage(kind.readType)) && s == errorString
    {
      if tag != TypeRead {
        return None;
      }
      if errorString == None {
        match kind.readType
        case ReadChildError =>
          errorString := Some("child read failed");
        case ReadEof =>
          errorString := Some("unexpected end of file");
      }
      s := errorString;
    }

    /** error_unmarshal_format_impl. */
    method FormatUnmarshalImpl() returns (s: Option<string>)
      requires tag == TagOf(kind)
      modifies this`errorString
      ensures tag != TypeUnmarshal ==> s == None && errorString == old(errorString)
      ensures tag == TypeUnmarshal ==>
                errorString == Cache(old(errorString), UnmarshalMessage(kind.unmarshalType)) && s == errorString
    {
      if tag != TypeUnmarshal {
        return None;
      }
      if errorString == None {
        match kind.unmarshalType
        case UnmarshalReadError =>
          errorString := Some("failed to read value");
        case UnmarshalChildError =>
          errorString := Some("failed to unmarshal child");
        case SignatureMismatch =>
          errorString := Some("signature mismatch");
        case InvalidAttributeType =>
          errorString := Some("invalid attribute_type");
      }
      s := errorString;
    }

    /** The message of this node's own kind. */
    function Message(strerror: int -> string): string
      reads this
    {
      match kind
      case Errno(n) => strerror(n)
      case Read(t) => ReadMessage(t)
      case Unmarshal(t) => UnmarshalMessage(t)
    }

    /**
     * error_format: calls the node's own format implementation. A node whose
     * implementation belongs to another tag formats to NULL; a node built by a
     * constructor caches its kind's message on the first call and returns the
     * cached string from then on.
     */
    method Format(strerror: int -> string) returns (s: Option<string>)
      requires tag == TagOf(kind)
      modifies this`errorString
      ensures impl != ImplFor(kind) ==> s == None && errorString == old(errorString)
      ensures impl == ImplFor(kind) ==>
                errorString == Cache(old(errorString), Message(strerror)) && s == errorString && s.Some?
    {
      match impl
      case ErrnoImpl =>
        s := FormatErrnoImpl(strerror);
      case ReadImpl =>
        s := FormatReadImpl();
      case UnmarshalImpl =>
        s := FormatUnmarshalImpl();
    }

    /** Formatting is cached: a second error_format returns the very string the first one did. */
    method FormatTwice(strerror: int -> string) returns (first: Option<string>, second: Option<string>)
      requires tag == TagOf(kind) && impl == ImplFor(kind)
      modifies this`errorString
      ensures first.Some? && second == first
      ensures old(errorString).Some? ==> first == old(errorString)
    {
      first := Format(strerror);
      second := Format(strerror);
    }

    /**
     * error_free: releases the causes first, deepest first, clearing `prev`,
     * then this node. `released` lists the nodes in the order they go.
     */
    method Free() returns (ghost released: seq<ErrorNode>)
      requires Valid()
      modifies Repr
      decreases Repr
      ensures released == Reversed(old(Nodes()))
      ensures forall n :: n in old(Repr) ==> !n.live && n.prev == null
    {
      ghost var before := Nodes();
      released := [];
      if prev != null {
        assert before == [this] + prev.Nodes();
        released := prev.Free();
        prev := null;
      }
      // The per-type release hooks have nothing of their own to free.
      live := false;
      released := released + [this];
    }
  }

  /** The elements of `s` in reverse order. */
  ghost function Reversed<T>(s: seq<T>): (r: seq<T>)
    ensures |r| == |s|
  {
    if s == [] then [] else Reversed(s[1..]) + [s[0]]
  }
}
